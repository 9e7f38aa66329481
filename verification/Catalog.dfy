/**
 The table of workloads and its pages (internal/catalog/store.go).
 */
module Catalog {
  import opened Text
  import opened StableSort

  datatype Key = Key(namespace: string, kind: string, name: string)

  datatype Container = Container(name: string, cpuRequest: int, memoryRequest: int)

  datatype Workload = Workload(
    uid: string, division: string, namespace: string, kind: string, name: string, health: string, createdAt: int,
    containers: seq<Container>)
  {
    function KeyOf(): Key {
      Key(namespace, kind, name)
    }
  }

  predicate KeyLess(a: Key, b: Key) {
    if a.namespace != b.namespace then Less(a.namespace, b.namespace)
    else if a.kind != b.kind then Less(a.kind, b.kind)
    else Less(a.name, b.name)
  }

  // ----- writing -----

  /** Where the row of an identifier is, or past the end. */
  function RowOf(rows: seq<Workload>, uid: string): (k: nat)
    ensures k <= |rows|
    ensures k < |rows| ==> rows[k].uid == uid
    ensures forall j :: 0 <= j < k ==> rows[j].uid != uid
  {
    if |rows| == 0 then 0
    else
      var k := RowOf(rows[..|rows| - 1], uid);
      if k < |rows| - 1 then k else if rows[|rows| - 1].uid == uid then |rows| - 1 else |rows|
  }

  function Lookup(rows: seq<Workload>, uid: string): Option<Workload> {
    var k := RowOf(rows, uid);
    if k < |rows| then Some(rows[k]) else None
  }

  /** Rows that are not a predecessor of `w`: the same name under another identifier. */
  function NotReplacedBy(w: Workload): Workload -> bool {
    (r: Workload) => r.KeyOf() != w.KeyOf() || r.uid == w.uid
  }

  function NotOf(uid: string): Workload -> bool {
    (r: Workload) => r.uid != uid
  }

  /** Insert, or on a conflict of identifiers replace all but the creation time. */
  function Placed(rows: seq<Workload>, w: Workload): seq<Workload> {
    var k := RowOf(rows, w.uid);
    if k < |rows| then rows[k := w.(createdAt := rows[k].createdAt)] else rows + [w]
  }

  function Upserted(rows: seq<Workload>, w: Workload): seq<Workload> {
    Placed(Filter(NotReplacedBy(w), rows), w)
  }

  function Deleted(rows: seq<Workload>, uid: string): seq<Workload> {
    Filter(NotOf(uid), rows)
  }

  /** PRIMARY KEY (uid) and UNIQUE (namespace, kind, name). */
  ghost predicate Unique(rows: seq<Workload>) {
    forall i, j :: 0 <= i < j < |rows| ==> rows[i].uid != rows[j].uid && rows[i].KeyOf() != rows[j].KeyOf()
  }

  // ----- reading -----

  /** How the SQL text search compares a name with what is looked for. */
  type Search = (string, string) -> bool

  datatype Query = Query(
    division: string, namespace: string, namespaces: Option<seq<string>>, health: string, search: string, limit: int,
        cursor: string)

  predicate Matches(like: Search, q: Query, w: Workload) {
    && (q.division != "" ==> w.division == q.division)
    && (q.namespace != "" ==> w.namespace == q.namespace)
    && (q.namespaces.Some? ==> w.namespace in q.namespaces.value)
    && (q.health != "" ==> w.health == q.health)
    && (q.search != "" ==> like(w.name, q.search))
  }

  function Wanted(like: Search, q: Query): Workload -> bool {
    (w: Workload) => Matches(like, q, w)
  }

  function Past(after: Option<Key>): Workload -> bool {
    (w: Workload) => after.Some? ==> KeyLess(after.value, w.KeyOf())
  }

  const ByKey: (Workload, Workload) -> bool := (a: Workload, b: Workload) => KeyLess(a.KeyOf(), b.KeyOf())

  const DEFAULT_PAGE := 100
  const MAX_PAGE := 500

  function PageSize(limit: int): nat {
    if limit <= 0 || limit > MAX_PAGE then DEFAULT_PAGE else limit
  }

  /** The SELECT: the rows wanted past the cursor, in order of their keys, at most `limit` of them. */
  function Select(like: Search, rows: seq<Workload>, q: Query, after: Option<Key>, limit: nat): seq<Workload> {
    AtMost(Sort(ByKey, Filter(Past(after), Filter(Wanted(like, q), rows))), limit)
  }

  // ----- page tokens -----

  /** An encoding of text for use in a URL: base64 without padding. */
  datatype TextCodec = TextCodec(encode: string -> string, decode: string -> Option<string>)

  ghost predicate Faithful(codec: TextCodec) {
    forall s :: codec.decode(codec.encode(s)) == Some(s) && (s != "" ==> codec.encode(s) != "")
  }

  const NUL := '\0'

  function EncodeCursor(codec: TextCodec, k: Key): string {
    codec.encode(Join([k.namespace, k.kind, k.name], NUL))
  }

  function DecodeCursor(codec: TextCodec, token: string): Option<Key> {
    match codec.decode(token)
    case None => None
    case Some(raw) =>
      var parts := Split(raw, NUL);
      if |parts| != 3 then None else Some(Key(parts[0], parts[1], parts[2]))
  }

  datatype Listing = Page(workloads: seq<Workload>, next: string) | MalformedToken

  /** The key a listing starts past; None inside when the token is malformed. */
  function StartOf(codec: TextCodec, cursor: string): Option<Option<Key>> {
    if cursor == "" then Some(None)
    else
      match DecodeCursor(codec, cursor)
      case None => None
      case Some(k) => Some(Some(k))
  }

  function List(codec: TextCodec, like: Search, rows: seq<Workload>, q: Query): Listing {
    match StartOf(codec, q.cursor)
    case None => MalformedToken
    case Some(after) =>
      var limit := PageSize(q.limit);
      var found := Select(like, rows, q, after, limit + 1);
      if |found| > limit then Page(found[..limit], EncodeCursor(codec, found[limit - 1].KeyOf())) else Page(found, "")
  }

  class Store {
    const codec: TextCodec
    const like: Search
    var rows: seq<Workload>

    constructor (codec: TextCodec, like: Search)
      ensures this.codec == codec && this.like == like && rows == []
    {
      this.codec, this.like, this.rows := codec, like, [];
    }

    method UpsertWorkload(w: Workload, fails: bool) returns (ok: bool)
      modifies this`rows
      ensures ok <==> !fails
      ensures rows == if ok then Upserted(old(rows), w) else old(rows)
    {
      if fails {
        return false;
      }
      rows := Filter(NotReplacedBy(w), rows);
      var k := RowOf(rows, w.uid);
      if k < |rows| {
        rows := rows[k := w.(createdAt := rows[k].createdAt, containers := [])];
      } else {
        rows := rows + [w.(containers := [])];
      }
      ghost var cleared := rows;
      for i := 0 to |w.containers|
        invariant k < |rows| && rows == cleared[k := cleared[k].(containers := w.containers[..i])]
      {
        assert w.containers[..i + 1] == w.containers[..i] + [w.containers[i]];
        rows := rows[k := rows[k].(containers := rows[k].containers + [w.containers[i]])];
      }
      assert w.containers[..|w.containers|] == w.containers;
      ok := true;
    }

    method DeleteWorkload(uid: string, fails: bool) returns (ok: bool)
      modifies this`rows
      ensures ok <==> !fails
      ensures rows == if ok then Deleted(old(rows), uid) else old(rows)
    {
      if fails {
        return false;
      }
      rows := Filter(NotOf(uid), rows);
      ok := true;
    }

    method ListWorkloads(q: Query) returns (listing: Listing)
      ensures listing == List(codec, like, rows, q)
    {
      var limit := if q.limit <= 0 || q.limit > MAX_PAGE then DEFAULT_PAGE else q.limit;
      var after := None;
      if q.cursor != "" {
        after := DecodeCursor(codec, q.cursor);
        if after.None? {
          return MalformedToken;
        }
      }
      var workloads := Select(like, rows, q, after, limit + 1);
      var next := "";
      if |workloads| > limit {
        next := EncodeCursor(codec, workloads[limit - 1].KeyOf());
        workloads := workloads[..limit];
      }
      listing := Page(workloads, next);
    }
  }
}
