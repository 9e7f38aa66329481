/**
 What a listing shows to whom: every restriction of a query said of the rows on its pages, and of the rows it leaves
 out.
 */
module CatalogFilters {
  import opened Text
  import opened StableSort
  import opened Catalog
  import opened CatalogLaws

  // ----- the rows on a page -----

  lemma SelectedMatch(like: Search, rows: seq<Workload>, q: Query, after: Option<Key>, limit: nat, i: nat)
    requires i < |Select(like, rows, q, after, limit)|
    ensures var w := Select(like, rows, q, after, limit)[i]; w in rows && Matches(like, q, w) && Past(after)(w)
  {
    var wanted := Filter(Wanted(like, q), rows);
    var past := Filter(Past(after), wanted);
    var w := Select(like, rows, q, after, limit)[i];
    assert Sort(ByKey, past)[i] == w && w in multiset(Sort(ByKey, past));
    assert w in multiset(past);
    FilterKeepsMembers(Past(after), wanted, w);
    FilterKeepsMembers(Wanted(like, q), rows, w);
  }

  /** A row on a page is in the table and meets every restriction that was given. */
  lemma RowsOnAPageMeetTheQuery(codec: TextCodec, like: Search, rows: seq<Workload>, q: Query, i: nat)
    requires List(codec, like, rows, q).Page? && i < |List(codec, like, rows, q).workloads|
    ensures var w := List(codec, like, rows, q).workloads[i];
      && w in rows
      && (q.division == "" || w.division == q.division)
      && (q.namespace == "" || w.namespace == q.namespace)
      && (q.namespaces == None || exists k :: 0 <= k < |q.namespaces.value| && q.namespaces.value[k] == w.namespace)
      && (q.health == "" || w.health == q.health)
      && (q.search == "" || like(w.name, q.search))
  {
    SelectedMatch(like, rows, q, StartOf(codec, q.cursor).value, PageSize(q.limit) + 1, i);
  }

  /** Whoever may see no namespace sees nothing: one empty page. */
  lemma WithoutNamespacesThereIsNothing(codec: TextCodec, like: Search, rows: seq<Workload>, q: Query)
    requires q.namespaces == Some([]) && StartOf(codec, q.cursor).Some?
    ensures List(codec, like, rows, q) == Page([], "")
  {
    var limit := PageSize(q.limit);
    var found := Select(like, rows, q, StartOf(codec, q.cursor).value, limit + 1);
    if |found| > 0 {
      SelectedMatch(like, rows, q, StartOf(codec, q.cursor).value, limit + 1, 0);
    }
  }

  // ----- the rows of all pages -----

  /** Everything the pages of a query hold between them. */
  function Shown(codec: TextCodec, like: Search, rows: seq<Workload>, q: Query): seq<Workload> {
    Visited(ListerFor(codec, like, rows, q), PageCount(|AllMatching(like, rows, q)|, PageSize(q.limit)))
  }

  ghost predicate Listable(codec: TextCodec, rows: seq<Workload>) {
    Faithful(codec) && Unique(rows) && forall w <- rows :: NulFree(w.KeyOf())
  }

  /** A row of the table that meets every restriction given is on the pages, in one place. */
  lemma ARowThatMeetsItIsShownOnce(codec: TextCodec, like: Search, rows: seq<Workload>, q: Query, w: Workload)
      returns (k: nat)
    requires Listable(codec, rows) && w in rows
    requires q.division == "" || w.division == q.division
    requires q.namespace == "" || w.namespace == q.namespace
    requires q.namespaces == None || w.namespace in q.namespaces.value
    requires q.health == "" || w.health == q.health
    requires q.search == "" || like(w.name, q.search)
    ensures var shown := Shown(codec, like, rows, q);
      k < |shown| && shown[k] == w && forall j :: 0 <= j < |shown| && j != k ==> shown[j] != w
  {
    FollowingTokensVisitsEachRowOnce(codec, like, rows, q);
    var all := AllMatching(like, rows, q);
    assert w in all;
    k :| k < |all| && all[k] == w;
    forall j | 0 <= j < |all| && j != k ensures all[j] != w {
      KeyLessIsTotal(all[j].KeyOf(), all[k].KeyOf());
      assert KeyLess(all[j].KeyOf(), all[k].KeyOf()) || KeyLess(all[k].KeyOf(), all[j].KeyOf());
    }
  }

  /** Namespace by namespace; within one by kind, and within a kind by name. */
  lemma RowsComeByNamespaceKindAndName(codec: TextCodec, like: Search, rows: seq<Workload>, q: Query, i: nat, j: nat)
    requires Listable(codec, rows) && i < j < |Shown(codec, like, rows, q)|
    ensures var a, b := Shown(codec, like, rows, q)[i], Shown(codec, like, rows, q)[j];
      || Less(a.namespace, b.namespace)
      || (a.namespace == b.namespace && Less(a.kind, b.kind))
      || (a.namespace == b.namespace && a.kind == b.kind && Less(a.name, b.name))
  {
    FollowingTokensVisitsEachRowOnce(codec, like, rows, q);
  }

  /** Every page but the last is full: as many rows as were asked for, from one to 500, and else a hundred. */
  lemma EveryPageButTheLastIsFull(codec: TextCodec, like: Search, rows: seq<Workload>, q: Query, k: nat)
    requires Listable(codec, rows)
    requires k < PageCount(|AllMatching(like, rows, q)|, PageSize(q.limit))
    ensures var page := PageAt(ListerFor(codec, like, rows, q), k);
      var size := if 1 <= q.limit <= 500 then q.limit else 100;
      && page.Page? && |page.workloads| <= size && (page.next != "" ==> |page.workloads| == size)
  {
    var list, all, size := ListerFor(codec, like, rows, q), AllMatching(like, rows, q), PageSize(q.limit);
    ListerSlices(codec, like, rows, q);
    OnlyTheLastPageEnds(|all|, size, k);
    PageIsASlice(list, all, Tokens(codec, all), size, k);
  }

  // ----- narrowing a query -----

  lemma NarrowerShowsTheRest(codec: TextCodec, like: Search, rows: seq<Workload>, wide: Query, narrow: Query,
      more: Workload -> bool)
    requires Listable(codec, rows)
    requires forall w :: Matches(like, narrow, w) <==> Matches(like, wide, w) && more(w)
    ensures Shown(codec, like, rows, narrow) == Filter(more, Shown(codec, like, rows, wide))
  {
    FollowingTokensVisitsEachRowOnce(codec, like, rows, wide);
    FollowingTokensVisitsEachRowOnce(codec, like, rows, narrow);
    PastCommutes(more, Filter(Wanted(like, wide), rows));
    FilterOfFilter(Wanted(like, wide), more, Wanted(like, narrow), rows);
  }

  /** Asking for one division more shows of what was shown before the rows of that division, in the same order. */
  lemma OneDivision(codec: TextCodec, like: Search, rows: seq<Workload>, q: Query, division: string)
    requires Listable(codec, rows) && q.division == "" && division != ""
    ensures Shown(codec, like, rows, q.(division := division))
         == Filter((w: Workload) => w.division == division, Shown(codec, like, rows, q))
  {
    NarrowerShowsTheRest(codec, like, rows, q, q.(division := division), (w: Workload) => w.division == division);
  }

  lemma OneNamespace(codec: TextCodec, like: Search, rows: seq<Workload>, q: Query, namespace: string)
    requires Listable(codec, rows) && q.namespace == "" && namespace != ""
    ensures Shown(codec, like, rows, q.(namespace := namespace))
         == Filter((w: Workload) => w.namespace == namespace, Shown(codec, like, rows, q))
  {
    NarrowerShowsTheRest(codec, like, rows, q, q.(namespace := namespace), (w: Workload) => w.namespace == namespace);
  }

  /** What a caller may see of a listing is its rows in the caller's namespaces, and nothing but these. */
  lemma OnlyTheseNamespaces(codec: TextCodec, like: Search, rows: seq<Workload>, q: Query, namespaces: seq<string>)
    requires Listable(codec, rows) && q.namespaces == None
    ensures Shown(codec, like, rows, q.(namespaces := Some(namespaces)))
         == Filter((w: Workload) => w.namespace in namespaces, Shown(codec, like, rows, q))
  {
    NarrowerShowsTheRest(codec, like, rows, q, q.(namespaces := Some(namespaces)),
        (w: Workload) => w.namespace in namespaces);
  }

  lemma OneHealth(codec: TextCodec, like: Search, rows: seq<Workload>, q: Query, health: string)
    requires Listable(codec, rows) && q.health == "" && health != ""
    ensures Shown(codec, like, rows, q.(health := health))
         == Filter((w: Workload) => w.health == health, Shown(codec, like, rows, q))
  {
    NarrowerShowsTheRest(codec, like, rows, q, q.(health := health), (w: Workload) => w.health == health);
  }

  lemma OneSearch(codec: TextCodec, like: Search, rows: seq<Workload>, q: Query, search: string)
    requires Listable(codec, rows) && q.search == "" && search != ""
    ensures Shown(codec, like, rows, q.(search := search))
         == Filter((w: Workload) => like(w.name, search), Shown(codec, like, rows, q))
  {
    NarrowerShowsTheRest(codec, like, rows, q, q.(search := search), (w: Workload) => like(w.name, search));
  }
}
