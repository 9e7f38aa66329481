/**
 What the table of workloads keeps over every run of writes, and that following page tokens visits every row once.
 */
module CatalogLaws {
  import opened Text
  import opened StableSort
  import opened Catalog

  // ----- writing -----

  datatype Op = Upsert(workload: Workload) | Delete(uid: string)

  function Apply(rows: seq<Workload>, op: Op): seq<Workload> {
    match op
    case Upsert(w) => Upserted(rows, w)
    case Delete(uid) => Deleted(rows, uid)
  }

  function Run(rows: seq<Workload>, ops: seq<Op>): seq<Workload> {
    if |ops| == 0 then rows else Apply(Run(rows, ops[..|ops| - 1]), ops[|ops| - 1])
  }

  lemma {:induction false} FilterKeepsUnique(keep: Workload -> bool, rows: seq<Workload>)
    requires Unique(rows)
    ensures Unique(Filter(keep, rows))
  {
    if |rows| > 0 {
      var rest, last := rows[..|rows| - 1], rows[|rows| - 1];
      FilterKeepsUnique(keep, rest);
      var kept := Filter(keep, rest);
      forall i | 0 <= i < |kept| ensures kept[i].uid != last.uid && kept[i].KeyOf() != last.KeyOf() {
        var j := FilterKeepsIndex(keep, rest, i);
        assert rows[j] == kept[i];
      }
    }
  }

  lemma FilterGivesKept(keep: Workload -> bool, rows: seq<Workload>, i: nat)
    requires i < |Filter(keep, rows)|
    ensures keep(Filter(keep, rows)[i])
  {
    FilterKeepsMembers(keep, rows, Filter(keep, rows)[i]);
  }

  /** The delete before the insert is what makes room for a recreated object's name. */
  lemma UpsertKeepsUnique(rows: seq<Workload>, w: Workload)
    requires Unique(rows)
    ensures Unique(Upserted(rows, w))
  {
    var kept := Filter(NotReplacedBy(w), rows);
    FilterKeepsUnique(NotReplacedBy(w), rows);
    forall i | 0 <= i < |kept| ensures kept[i].KeyOf() != w.KeyOf() || kept[i].uid == w.uid {
      FilterGivesKept(NotReplacedBy(w), rows, i);
    }
  }

  /** No run of writes ever meets a violated constraint: identifiers and names stay unique. */
  lemma {:induction false} EveryRunKeepsUnique(rows: seq<Workload>, ops: seq<Op>)
    requires Unique(rows)
    ensures Unique(Run(rows, ops))
  {
    if |ops| > 0 {
      EveryRunKeepsUnique(rows, ops[..|ops| - 1]);
      var before := Run(rows, ops[..|ops| - 1]);
      match ops[|ops| - 1] {
        case Upsert(w) => UpsertKeepsUnique(before, w);
        case Delete(uid) => FilterKeepsUnique(NotOf(uid), before);
      }
    }
  }

  lemma LookupFinds(rows: seq<Workload>, k: nat)
    requires Unique(rows) && k < |rows|
    ensures Lookup(rows, rows[k].uid) == Some(rows[k])
  {
  }

  lemma LookupOfFilter(keep: Workload -> bool, rows: seq<Workload>, uid: string)
    requires Unique(rows)
    ensures Lookup(Filter(keep, rows), uid) ==
      match Lookup(rows, uid)
      case None => None
      case Some(r) => if keep(r) then Some(r) else None
  {
    var kept := Filter(keep, rows);
    var k := RowOf(rows, uid);
    var j := RowOf(kept, uid);
    FilterKeepsUnique(keep, rows);
    if j < |kept| {
      var i := FilterKeepsIndex(keep, rows, j);
      FilterGivesKept(keep, rows, j);
      LookupFinds(rows, i);
    }
    if k < |rows| && keep(rows[k]) {
      FilterKeepsMembers(keep, rows, rows[k]);
      var i :| 0 <= i < |kept| && kept[i] == rows[k];
      LookupFinds(kept, i);
    }
  }

  /** What an upsert does, identifier by identifier: it replaces its own row, evicts a namesake and leaves the rest. */
  lemma UpsertByIdentifier(rows: seq<Workload>, w: Workload, uid: string)
    requires Unique(rows)
    ensures Lookup(Upserted(rows, w), uid) ==
      if uid == w.uid then
        Some(if Lookup(rows, uid).Some? then w.(createdAt := Lookup(rows, uid).value.createdAt) else w)
      else if Lookup(rows, uid).Some? && Lookup(rows, uid).value.KeyOf() == w.KeyOf() then None
      else Lookup(rows, uid)
  {
    var kept := Filter(NotReplacedBy(w), rows);
    LookupOfFilter(NotReplacedBy(w), rows, uid);
    LookupOfFilter(NotReplacedBy(w), rows, w.uid);
    FilterKeepsUnique(NotReplacedBy(w), rows);
    UpsertKeepsUnique(rows, w);
    var after := Upserted(rows, w);
    var k := RowOf(kept, w.uid);
    LookupFinds(after, k);
    PlacedElsewhere(kept, w, uid);
  }

  lemma PlacedElsewhere(rows: seq<Workload>, w: Workload, uid: string)
    requires Unique(rows) && Unique(Placed(rows, w))
    ensures uid != w.uid ==> Lookup(Placed(rows, w), uid) == Lookup(rows, uid)
  {
    var after := Placed(rows, w);
    if uid != w.uid && Lookup(rows, uid).Some? {
      LookupFinds(after, RowOf(rows, uid));
    }
  }

  lemma DeleteByIdentifier(rows: seq<Workload>, gone: string, uid: string)
    requires Unique(rows)
    ensures Lookup(Deleted(rows, gone), uid) == if uid == gone then None else Lookup(rows, uid)
  {
    LookupOfFilter(NotOf(gone), rows, uid);
  }

  // ----- the order of the pages -----

  lemma KeyLessIsTotal(a: Key, b: Key)
    ensures a == b || KeyLess(a, b) || KeyLess(b, a)
    ensures !(KeyLess(a, b) && KeyLess(b, a)) && !KeyLess(a, a)
  {
    LessIsTotal(a.namespace, b.namespace);
    LessIsTotal(a.kind, b.kind);
    LessIsTotal(a.name, b.name);
    LessIsAsymmetric(a.namespace, b.namespace);
    LessIsAsymmetric(a.kind, b.kind);
    LessIsAsymmetric(a.name, b.name);
    LessIsIrreflexive(a.name);
  }

  lemma KeyLessIsTransitive(a: Key, b: Key, c: Key)
    requires KeyLess(a, b) && KeyLess(b, c)
    ensures KeyLess(a, c)
  {
    LessIsAsymmetric(a.namespace, b.namespace);
    LessIsAsymmetric(a.kind, b.kind);
    if a.namespace != b.namespace && b.namespace != c.namespace {
      LessIsTransitive(a.namespace, b.namespace, c.namespace);
    } else if a.namespace == b.namespace == c.namespace {
      if a.kind != b.kind && b.kind != c.kind {
        LessIsTransitive(a.kind, b.kind, c.kind);
      } else if a.kind == b.kind == c.kind {
        LessIsTransitive(a.name, b.name, c.name);
      }
    }
  }

  lemma NotKeyLessIsTransitive(a: Key, b: Key, c: Key)
    requires !KeyLess(a, b) && !KeyLess(b, c)
    ensures !KeyLess(a, c)
  {
    KeyLessIsTotal(a, b);
    KeyLessIsTotal(b, c);
    KeyLessIsTotal(a, c);
    if KeyLess(b, a) && KeyLess(c, b) {
      KeyLessIsTransitive(c, b, a);
    }
  }

  lemma ByKeyIsStrictWeak()
    ensures StrictWeak(ByKey)
  {
    forall x: Workload ensures !ByKey(x, x) {
      KeyLessIsTotal(x.KeyOf(), x.KeyOf());
    }
    forall x: Workload, y: Workload, z: Workload | ByKey(x, y) && ByKey(y, z) ensures ByKey(x, z) {
      KeyLessIsTransitive(x.KeyOf(), y.KeyOf(), z.KeyOf());
    }
    forall x: Workload, y: Workload, z: Workload | !ByKey(x, y) && !ByKey(y, z) ensures !ByKey(x, z) {
      NotKeyLessIsTransitive(x.KeyOf(), y.KeyOf(), z.KeyOf());
    }
  }

  ghost predicate Ascending(s: seq<Workload>) {
    forall i, j :: 0 <= i < j < |s| ==> KeyLess(s[i].KeyOf(), s[j].KeyOf())
  }

  /** Every matching row, in order of its key. */
  function AllMatching(like: Search, rows: seq<Workload>, q: Query): seq<Workload> {
    Sort(ByKey, Filter(Wanted(like, q), rows))
  }

  /** Sorting a table with unique keys leaves its keys unique. */
  lemma {:induction false} SortKeepsKeysApart(rows: seq<Workload>)
    requires Unique(rows)
    ensures Unique(Sort(ByKey, rows))
  {
    if |rows| > 0 {
      var rest, x := rows[..|rows| - 1], rows[|rows| - 1];
      SortKeepsKeysApart(rest);
      forall j | 0 <= j < |Sort(ByKey, rest)|
        ensures Sort(ByKey, rest)[j].uid != x.uid && Sort(ByKey, rest)[j].KeyOf() != x.KeyOf()
      {
        var i := SameElements(Sort(ByKey, rest), rest, j);
        assert rest[i] == rows[i];
      }
      InsertKeepsKeysApart(Sort(ByKey, rest), x);
    }
  }

  lemma {:induction false} InsertKeepsKeysApart(s: seq<Workload>, x: Workload)
    requires Unique(s) && forall j :: 0 <= j < |s| ==> s[j].uid != x.uid && s[j].KeyOf() != x.KeyOf()
    ensures Unique(Insert(ByKey, s, x))
  {
    if |s| > 0 && ByKey(x, s[|s| - 1]) {
      var rest, last := s[..|s| - 1], s[|s| - 1];
      InsertKeepsKeysApart(rest, x);
      var inserted := Insert(ByKey, rest, x);
      forall j | 0 <= j < |inserted| ensures inserted[j].uid != last.uid && inserted[j].KeyOf() != last.KeyOf() {
        InsertedComesFrom(ByKey, rest, x, j);
        if inserted[j] != x {
          var i :| 0 <= i < |rest| && rest[i] == inserted[j];
          assert s[i] == rest[i];
        }
      }
    }
  }

  lemma AllMatchingAscends(like: Search, rows: seq<Workload>, q: Query)
    requires Unique(rows)
    ensures Ascending(AllMatching(like, rows, q))
  {
    var all := AllMatching(like, rows, q);
    ByKeyIsStrictWeak();
    SortOrders(ByKey, Filter(Wanted(like, q), rows));
    FilterKeepsUnique(Wanted(like, q), rows);
    SortKeepsKeysApart(Filter(Wanted(like, q), rows));
    forall i, j | 0 <= i < j < |all| ensures KeyLess(all[i].KeyOf(), all[j].KeyOf()) {
      assert !ByKey(all[j], all[i]);
      KeyLessIsTotal(all[i].KeyOf(), all[j].KeyOf());
    }
  }

  /** Each matching row is there exactly once. */
  lemma AllMatchingIsEveryMatch(like: Search, rows: seq<Workload>, q: Query, w: Workload)
    requires Unique(rows)
    ensures w in AllMatching(like, rows, q) <==> w in rows && Matches(like, q, w)
  {
    FilterKeepsMembers(Wanted(like, q), rows, w);
    assert w in AllMatching(like, rows, q) <==> w in multiset(AllMatching(like, rows, q));
    assert w in Filter(Wanted(like, q), rows) <==> w in multiset(Filter(Wanted(like, q), rows));
  }

  /** Where a page starts: past the row before it, or at the beginning. */
  function CursorAt(all: seq<Workload>, m: nat): Option<Key>
    requires m <= |all|
  {
    if m == 0 then None else Some(all[m - 1].KeyOf())
  }

  lemma PastIsTheRest(all: seq<Workload>, m: nat)
    requires Ascending(all) && m <= |all|
    ensures Filter(Past(CursorAt(all, m)), all) == all[m..]
  {
    var past := Past(CursorAt(all, m));
    forall j | 0 <= j < |all| ensures past(all[j]) <==> j >= m {
      PastFrom(all, m, j);
    }
    FilterIsSuffix(past, all, m);
  }

  lemma PastFrom(all: seq<Workload>, m: nat, j: nat)
    requires Ascending(all) && m <= |all| && j < |all|
    ensures Past(CursorAt(all, m))(all[j]) <==> j >= m
  {
    if m > 0 {
      var last := m - 1;
      KeyLessIsTotal(all[last].KeyOf(), all[j].KeyOf());
      if j < last {
        assert KeyLess(all[j].KeyOf(), all[last].KeyOf());
      } else if j > last {
        assert KeyLess(all[last].KeyOf(), all[j].KeyOf());
      }
    }
  }

  /** Selecting past a row's key gives the rows behind it. */
  lemma SelectIsASlice(like: Search, rows: seq<Workload>, q: Query, m: nat, limit: nat)
    requires Unique(rows) && m <= |AllMatching(like, rows, q)|
    ensures var all := AllMatching(like, rows, q);
      Select(like, rows, q, CursorAt(all, m), limit) == AtMost(all[m..], limit)
  {
    AllMatchingAscends(like, rows, q);
    PastIsTheRest(AllMatching(like, rows, q), m);
    PastCommutes(Past(CursorAt(AllMatching(like, rows, q), m)), Filter(Wanted(like, q), rows));
  }

  lemma PastCommutes(past: Workload -> bool, wanted: seq<Workload>)
    ensures Filter(past, Sort(ByKey, wanted)) == Sort(ByKey, Filter(past, wanted))
  {
    ByKeyIsStrictWeak();
    FilterCommutesWithSort(ByKey, past, wanted);
  }

  // ----- tokens -----

  predicate NulFree(k: Key) {
    NUL !in k.namespace && NUL !in k.kind && NUL !in k.name
  }

  /** A token is never the empty one, and reads back as its key exactly when no part of the key holds a NUL. */
  lemma TokensRoundTrip(codec: TextCodec, k: Key)
    requires Faithful(codec)
    ensures EncodeCursor(codec, k) != ""
    ensures DecodeCursor(codec, EncodeCursor(codec, k)) == if NulFree(k) then Some(k) else None
  {
    var parts := [k.namespace, k.kind, k.name];
    SplitOfJoinGrows(parts, NUL);
    if NulFree(k) {
      SplitOfJoin(parts, NUL);
    } else {
      assert NUL in parts[0] || NUL in parts[1] || NUL in parts[2];
    }
    JoinStep(k.namespace, [k.kind, k.name], NUL);
    assert [k.namespace] + [k.kind, k.name] == parts;
  }

  // ----- following the tokens -----

  /** A listing of one table by one query, as a function of the token. */
  type Lister = string -> Listing

  function ListerFor(codec: TextCodec, like: Search, rows: seq<Workload>, q: Query): Lister {
    (cursor: string) => List(codec, like, rows, q.(cursor := cursor))
  }

  /** The token of the kth page, starting from none and following each page's own. */
  function TokenAt(list: Lister, k: nat): string {
    if k == 0 then ""
    else
      match list(TokenAt(list, k - 1))
      case Page(_, next) => next
      case MalformedToken => ""
  }

  function PageAt(list: Lister, k: nat): Listing {
    list(TokenAt(list, k))
  }

  /** What the first `pages` pages hold between them. */
  function Visited(list: Lister, pages: nat): seq<Workload> {
    if pages == 0 then []
    else
      Visited(list, pages - 1)
      + match PageAt(list, pages - 1)
        case Page(workloads, _) => workloads
        case MalformedToken => []
  }

  function Minimum(a: nat, b: nat): nat {
    if a < b then a else b
  }

  /** The token of the page that follows `m` rows. */
  function TokenFor(codec: TextCodec, all: seq<Workload>, m: nat): string {
    if m == 0 || m > |all| then "" else EncodeCursor(codec, all[m - 1].KeyOf())
  }

  function Tokens(codec: TextCodec, all: seq<Workload>): nat -> string {
    (m: nat) => TokenFor(codec, all, m)
  }

  function Slice(all: seq<Workload>, token: nat -> string, size: nat, m: nat): Listing
    requires m <= |all|
  {
    Page(all[m..Minimum(m + size, |all|)], if m + size < |all| then token(m + size) else "")
  }

  /** A lister that cuts `all` into pages. */
  ghost predicate Slices(list: Lister, all: seq<Workload>, token: nat -> string, size: nat) {
    && token(0) == "" && (forall m: nat :: 0 < m < |all| ==> token(m) != "")
    && (forall m: nat :: m <= |all| ==> ListsSlice(list, all, token, size, m))
  }

  /** The page that follows `m` rows is the slice behind them. */
  ghost predicate ListsSlice(list: Lister, all: seq<Workload>, token: nat -> string, size: nat, m: nat)
    requires m <= |all|
  {
    list(token(m)) == Slice(all, token, size, m)
  }

  lemma CursorPlaysNoPart(like: Search, rows: seq<Workload>, q: Query, cursor: string, after: Option<Key>, limit: nat)
    ensures Select(like, rows, q.(cursor := cursor), after, limit) == Select(like, rows, q, after, limit)
  {
    SameFilter(Wanted(like, q.(cursor := cursor)), Wanted(like, q), rows);
  }

  lemma {:induction false} SameFilter(a: Workload -> bool, b: Workload -> bool, s: seq<Workload>)
    requires forall w :: a(w) == b(w)
    ensures Filter(a, s) == Filter(b, s)
  {
    if |s| > 0 {
      SameFilter(a, b, s[..|s| - 1]);
    }
  }

  lemma StartOfToken(codec: TextCodec, all: seq<Workload>, m: nat)
    requires Faithful(codec) && m <= |all| && (m > 0 ==> NulFree(all[m - 1].KeyOf()))
    ensures StartOf(codec, TokenFor(codec, all, m)) == Some(CursorAt(all, m))
    ensures m > 0 ==> TokenFor(codec, all, m) != ""
  {
    if m > 0 {
      TokensRoundTrip(codec, all[m - 1].KeyOf());
    }
  }

  /** What List makes of the rows it selects. */
  function Trimmed(codec: TextCodec, found: seq<Workload>, limit: nat): Listing
    requires limit > 0
  {
    if |found| > limit then Page(found[..limit], EncodeCursor(codec, found[limit - 1].KeyOf())) else Page(found, "")
  }

  lemma TrimmedIsASlice(codec: TextCodec, all: seq<Workload>, m: nat, size: nat)
    requires m <= |all| && size > 0
    ensures Trimmed(codec, AtMost(all[m..], size + 1), size) == Slice(all, Tokens(codec, all), size, m)
  {
    var found := AtMost(all[m..], size + 1);
    if m + size < |all| {
      assert found[..size] == all[m..m + size];
      assert found[size - 1] == all[m + size - 1];
    } else {
      assert found == all[m..|all|];
    }
  }

  lemma ListIsASlice(codec: TextCodec, like: Search, rows: seq<Workload>, q: Query, m: nat)
    requires Faithful(codec) && Unique(rows) && m <= |AllMatching(like, rows, q)|
    requires m > 0 ==> NulFree(AllMatching(like, rows, q)[m - 1].KeyOf())
    ensures var all := AllMatching(like, rows, q);
      List(codec, like, rows, q.(cursor := TokenFor(codec, all, m)))
          == Slice(all, Tokens(codec, all), PageSize(q.limit), m)
  {
    var all := AllMatching(like, rows, q);
    var size := PageSize(q.limit);
    var token := TokenFor(codec, all, m);
    StartOfToken(codec, all, m);
    CursorPlaysNoPart(like, rows, q, token, CursorAt(all, m), size + 1);
    SelectIsASlice(like, rows, q, m, size + 1);
    TrimmedIsASlice(codec, all, m, size);
  }

  lemma ListerSlices(codec: TextCodec, like: Search, rows: seq<Workload>, q: Query)
    requires Faithful(codec) && Unique(rows) && (forall w <- rows :: NulFree(w.KeyOf()))
    ensures var all := AllMatching(like, rows, q);
      Slices(ListerFor(codec, like, rows, q), all, Tokens(codec, all), PageSize(q.limit))
  {
    var all := AllMatching(like, rows, q);
    var list := ListerFor(codec, like, rows, q);
    forall m: nat | m <= |all|
      ensures ListsSlice(list, all, Tokens(codec, all), PageSize(q.limit), m)
      ensures m > 0 ==> Tokens(codec, all)(m) != ""
    {
      if m > 0 {
        AllMatchingIsEveryMatch(like, rows, q, all[m - 1]);
      }
      StartOfToken(codec, all, m);
      ListIsASlice(codec, like, rows, q, m);
    }
  }

  /** How many rows are on the pages before the kth. */
  function RowsBefore(k: nat, size: nat): nat {
    if k == 0 then 0 else RowsBefore(k - 1, size) + size
  }

  lemma {:induction false} RowsBeforeIsAProduct(k: nat, size: nat)
    ensures RowsBefore(k, size) == k * size
  {
    if k > 0 {
      RowsBeforeIsAProduct(k - 1, size);
      assert k * size == (k - 1) * size + size;
    }
  }

  lemma {:induction false} RowsBeforeGrows(k: nat, last: nat, size: nat)
    requires k <= last
    ensures RowsBefore(k, size) <= RowsBefore(last, size)
  {
    if k < last {
      RowsBeforeGrows(k, last - 1, size);
    }
  }

  /** The kth page is the kth slice. */
  lemma {:induction false} PageIsASlice(list: Lister, all: seq<Workload>, token: nat -> string, size: nat, k: nat)
    requires Slices(list, all, token, size) && (k > 0 ==> RowsBefore(k, size) < |all|)
    ensures RowsBefore(k, size) <= |all| && TokenAt(list, k) == token(RowsBefore(k, size))
    ensures PageAt(list, k) == Slice(all, token, size, RowsBefore(k, size))
  {
    if k > 0 {
      PageIsASlice(list, all, token, size, k - 1);
      assert TokenAt(list, k) == token(RowsBefore(k, size));
    }
    assert ListsSlice(list, all, token, size, RowsBefore(k, size));
  }

  lemma {:induction false} VisitedIsAPrefix(list: Lister, all: seq<Workload>, token: nat -> string, size: nat,
      pages: nat)
    requires Slices(list, all, token, size) && (pages > 1 ==> RowsBefore(pages - 1, size) < |all|)
    ensures Visited(list, pages) == AtMost(all, RowsBefore(pages, size))
  {
    if pages > 0 {
      VisitedIsAPrefix(list, all, token, size, pages - 1);
      PageIsASlice(list, all, token, size, pages - 1);
      SlicesJoin(all, RowsBefore(pages - 1, size), size);
    }
  }

  lemma SlicesJoin(all: seq<Workload>, from: nat, size: nat)
    requires from <= |all|
    ensures AtMost(all, from) + all[from..Minimum(from + size, |all|)] == AtMost(all, from + size)
  {
  }

  /** How many pages there are: one for every full or partly filled page, and one when nothing matches. */
  function PageCount(matching: nat, size: nat): (pages: nat)
    requires size > 0
    ensures pages >= 1 && RowsBefore(pages, size) >= matching && (pages > 1 ==> RowsBefore(pages - 1, size) < matching)
  {
    if matching <= size then
      assert RowsBefore(1, size) == RowsBefore(0, size) + size;
      1
    else
      var rest := PageCount(matching - size, size);
      assert rest > 1 ==> RowsBefore(rest, size) == RowsBefore(rest - 1, size) + size;
      assert rest == 1 ==> RowsBefore(rest, size) == size;
      1 + rest
  }

  /** The number of pages is the number of rows over the size of a page, rounded up, and at least one. */
  lemma PageCountRoundsUp(matching: nat, size: nat)
    requires size > 0
    ensures var pages := PageCount(matching, size);
      pages * size >= matching && (pages > 1 ==> (pages - 1) * size < matching)
  {
    RowsBeforeIsAProduct(PageCount(matching, size), size);
    RowsBeforeIsAProduct(PageCount(matching, size) - 1, size);
  }

  lemma OnlyTheLastPageEnds(n: nat, size: nat, k: nat)
    requires size > 0 && k < PageCount(n, size)
    ensures RowsBefore(k, size) + size >= n <==> k == PageCount(n, size) - 1
    ensures k > 0 ==> RowsBefore(k, size) < n
  {
    var last := PageCount(n, size) - 1;
    assert RowsBefore(last + 1, size) == RowsBefore(last, size) + size;
    RowsBeforeGrows(k, last, size);
    if k < last {
      RowsBeforeGrows(k + 1, last, size);
      assert RowsBefore(k + 1, size) == RowsBefore(k, size) + size;
    }
  }

  lemma NextIsEmptyOnlyAtTheEnd(list: Lister, all: seq<Workload>, token: nat -> string, size: nat, k: nat)
    requires Slices(list, all, token, size) && size > 0 && k < PageCount(|all|, size)
    ensures PageAt(list, k).Page? && (PageAt(list, k).next == "" <==> k == PageCount(|all|, size) - 1)
  {
    OnlyTheLastPageEnds(|all|, size, k);
    PageIsASlice(list, all, token, size, k);
  }

  /**
   On a table nobody writes to meanwhile, following the tokens visits every matching row exactly once, in order of its
   key, and comes to an end after as many pages as the rows fill.
   */
  lemma FollowingTokensVisitsEachRowOnce(codec: TextCodec, like: Search, rows: seq<Workload>, q: Query)
    requires Faithful(codec) && Unique(rows) && (forall w <- rows :: NulFree(w.KeyOf()))
    ensures var list := ListerFor(codec, like, rows, q);
      var all := AllMatching(like, rows, q);
      var pages := PageCount(|all|, PageSize(q.limit));
      && Visited(list, pages) == all && Ascending(all)
      && (forall w :: w in all <==> w in rows && Matches(like, q, w))
      && (forall k: nat :: k < pages ==> PageAt(list, k).Page? && (PageAt(list, k).next == "" <==> k == pages - 1))
  {
    var list := ListerFor(codec, like, rows, q);
    var all := AllMatching(like, rows, q);
    var size := PageSize(q.limit);
    ListerSlices(codec, like, rows, q);
    VisitedIsAPrefix(list, all, Tokens(codec, all), size, PageCount(|all|, size));
    AllMatchingAscends(like, rows, q);
    forall w: Workload ensures w in all <==> w in rows && Matches(like, q, w) {
      AllMatchingIsEveryMatch(like, rows, q, w);
    }
    forall k: nat | k < PageCount(|all|, size)
      ensures PageAt(list, k).Page? && (PageAt(list, k).next == "" <==> k == PageCount(|all|, size) - 1)
    {
      NextIsEmptyOnlyAtTheEnd(list, all, Tokens(codec, all), size, k);
    }
  }
}
