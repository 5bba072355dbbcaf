/**
 * The slice of the Chroma vector store that the backend uses: named
 * collections of records, each record an id, a text and a metadata
 * dictionary; `where` filters over that metadata; and the shape of a query
 * result. Similarity ranking is foreign (floating-point embeddings), so the
 * query itself is a parameter of every operation that issues one.
 */
module VectorStore {
  import opened Wrappers

  /** A metadata value as Chroma stores it (floats are not modelled). */
  datatype MetaValue = MStr(s: string) | MInt(i: int) | MBool(b: bool)

  type Metadata = map<string, MetaValue>

  datatype Record = Record(id: string, document: string, metadata: Metadata)

  /** A metadata filter: `{key: value}` or `{"$or": [clause, ...]}`. */
  datatype Where = Eq(key: string, value: MetaValue) | AnyOf(clauses: seq<Where>)

  /** Whether a record's metadata satisfies a filter. */
  predicate Matches(meta: Metadata, w: Where)
    decreases w
  {
    match w
    case Eq(k, v) => k in meta && meta[k] == v
    case AnyOf(clauses) => exists i :: 0 <= i < |clauses| && Matches(meta, clauses[i])
  }

  /** The arguments of `collection.query(...)`: one query text, a result
      budget and an optional filter. */
  datatype Query = Query(text: string, nResults: nat, where: Option<Where>)

  /** The `documents` and `metadatas` entries of a query result: one row per
      query text, either of which may be missing. */
  datatype QueryResult = QueryResult(
    documents: Option<seq<seq<string>>>,
    metadatas: Option<seq<seq<Metadata>>>)

  /** `get_collection` else `create_collection` over the name map. */
  function GetOrCreate(collections: map<string, seq<Record>>, name: string): (r: map<string, seq<Record>>)
    ensures name in r
    ensures name in collections ==> r == collections
    ensures name !in collections ==> r[name] == [] && r.Keys == collections.Keys + {name}
    ensures forall n :: n in collections ==> n in r && r[n] == collections[n]
  {
    if name in collections then collections else collections[name := []]
  }

  /** A second lookup of the same name changes nothing. */
  lemma GetOrCreateIdempotent(collections: map<string, seq<Record>>, name: string)
    ensures GetOrCreate(GetOrCreate(collections, name), name) == GetOrCreate(collections, name)
  {
  }

  /** The records `collection.add(ids, documents, metadatas)` inserts. */
  function Records(ids: seq<string>, texts: seq<string>, metas: seq<Metadata>): (r: seq<Record>)
    requires |ids| == |texts| == |metas|
    ensures |r| == |ids|
    ensures forall i :: 0 <= i < |r| ==> r[i] == Record(ids[i], texts[i], metas[i])
  {
    if ids == [] then [] else [Record(ids[0], texts[0], metas[0])] + Records(ids[1..], texts[1..], metas[1..])
  }

  // ------------------------------------------------------------------
  // A reference query
  // ------------------------------------------------------------------

  function Min(a: nat, b: nat): nat
  {
    if a < b then a else b
  }

  /** The records a filter admits, in collection order. */
  function Filtered(records: seq<Record>, w: Option<Where>): (r: seq<Record>)
    ensures |r| <= |records|
  {
    if records == [] then []
    else (if w.None? || Matches(records[0].metadata, w.value) then [records[0]] else []) + Filtered(records[1..], w)
  }

  /** The admitted records are exactly the records the filter matches. */
  lemma {:induction false} FilteredMembers(records: seq<Record>, w: Option<Where>)
    ensures forall x :: x in Filtered(records, w) <==> x in records && (w.None? || Matches(x.metadata, w.value))
  {
    if records != [] {
      FilteredMembers(records[1..], w);
      assert records == [records[0]] + records[1..];
    }
  }

  /** Without a filter every record is admitted. */
  lemma {:induction false} FilteredAll(records: seq<Record>)
    ensures Filtered(records, None) == records
  {
    if records != [] {
      FilteredAll(records[1..]);
      assert records == [records[0]] + records[1..];
    }
  }

  /** A scan of the collection that keeps the admitted records until the
      result budget `n` is spent. */
  function Admitted(records: seq<Record>, w: Option<Where>, n: nat): (r: seq<Record>)
    ensures |r| <= n && |r| <= |records|
  {
    if records == [] || n == 0 then []
    else if w.None? || Matches(records[0].metadata, w.value) then [records[0]] + Admitted(records[1..], w, n - 1)
    else Admitted(records[1..], w, n)
  }

  /** The scan returns the first `n` admitted records, in collection order. */
  lemma {:induction false} AdmittedFirst(records: seq<Record>, w: Option<Where>, n: nat)
    ensures var f := Filtered(records, w); Admitted(records, w, n) == f[..Min(n, |f|)]
  {
    if records != [] && n != 0 {
      var f := Filtered(records, w);
      var rest := Filtered(records[1..], w);
      if w.None? || Matches(records[0].metadata, w.value) {
        AdmittedFirst(records[1..], w, n - 1);
        assert f == [records[0]] + rest;
        assert f[..Min(n, |f|)] == [records[0]] + rest[..Min(n - 1, |rest|)];
      } else {
        AdmittedFirst(records[1..], w, n);
        assert f == rest;
      }
    }
  }

  /** A reference query that honours the filter and the result budget: one
      row holding the texts and one holding the metadata of the admitted
      records. Similarity ranking is not modelled, so collection order
      stands in for it. */
  function HonestQuery(records: seq<Record>, q: Query): (r: QueryResult)
    ensures r.documents.Some? && r.metadatas.Some? && |r.documents.value| == 1 && |r.metadatas.value| == 1
  {
    var kept := Admitted(records, q.where, q.nResults);
    QueryResult(
      Some([seq(|kept|, i requires 0 <= i < |kept| => kept[i].document)]),
      Some([seq(|kept|, i requires 0 <= i < |kept| => kept[i].metadata)]))
  }

  /** The persistent client: a map from collection name to its records. */
  class Store {
    var collections: map<string, seq<Record>>

    constructor ()
      ensures collections == map[]
    {
      collections := map[];
    }

    /** `get_collection(name)`, falling back to `create_collection(name)`;
        the collection is identified by its name from then on. */
    method GetOrCreateCollection(name: string)
      modifies this
      ensures collections == GetOrCreate(old(collections), name)
    {
      if name !in collections {
        collections := collections[name := []];
      }
    }

    /** `collection.add(...)`: the new records go after the existing ones. */
    method Add(name: string, records: seq<Record>)
      requires name in collections
      modifies this
      ensures collections == old(collections)[name := old(collections)[name] + records]
    {
      collections := collections[name := collections[name] + records];
    }
  }
}
