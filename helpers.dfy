/**
 * Post-processing used by the assistant's tools: normalising a store query
 * result into two lists, a truncating summary of chunks, and keyword
 * extraction over chunks.
 */
module Helpers {
  import opened Wrappers
  import opened Strings
  import opened VectorStore
  import Pipeline

  // ------------------------------------------------------------------
  // search
  // ------------------------------------------------------------------

  /** `{"document_id": document_id} if document_id is not None else None`. */
  function SearchWhere(documentId: Option<int>): (r: Option<Where>)
    ensures r.None? <==> documentId.None?
    ensures r.Some? ==> r.value.Eq? && r.value.key == "document_id"
  {
    match documentId
    case None => None
    case Some(id) => Some(Eq("document_id", MInt(id)))
  }

  /** The search filter admits exactly the records whose `document_id` is the
      requested one. */
  lemma SearchWhereMatches(id: int, meta: Metadata)
    ensures Matches(meta, SearchWhere(Some(id)).value) <==> "document_id" in meta && meta["document_id"] == MInt(id)
  {
  }

  /** `rows[0] if rows and rows[0] else []`: the row of the single query
      text, or an empty list when the outer list or that row is missing or
      empty. */
  function FirstRow<T>(rows: Option<seq<seq<T>>>): (r: seq<T>)
    ensures rows.None? || rows.value == [] ==> r == []
    ensures rows.Some? && rows.value != [] ==> r == rows.value[0]
  {
    if rows.Some? && rows.value != [] && rows.value[0] != [] then rows.value[0] else []
  }

  /** The two lists `search` returns for a query result: each is the row of
      the single query text when the result has that row, and empty when
      the entry is missing or has no rows, never missing itself. */
  function Normalize(result: QueryResult): (r: (seq<string>, seq<Metadata>))
    ensures result.documents.Some? && result.documents.value != [] ==> r.0 == result.documents.value[0]
    ensures result.documents.None? || result.documents.value == [] ==> r.0 == []
    ensures result.metadatas.Some? && result.metadatas.value != [] ==> r.1 == result.metadatas.value[0]
    ensures result.metadatas.None? || result.metadatas.value == [] ==> r.1 == []
  {
    (FirstRow(result.documents), FirstRow(result.metadatas))
  }

  /** `search(query, document_id, user_email)`: look up the user's
      collection, run one query for eight results, normalise the answer.
      `query` stands for Chroma's similarity search over a collection. */
  method Search(
    store: Store, text: string, documentId: Option<int>, email: string,
    query: (seq<Record>, Query) -> QueryResult) returns (docs: seq<string>, metas: seq<Metadata>)
    modifies store
    ensures store.collections == GetOrCreate(old(store.collections), Pipeline.CollectionName(email))
    ensures var name := Pipeline.CollectionName(email);
      (docs, metas) == Normalize(query(store.collections[name], Query(text, 8, SearchWhere(documentId))))
  {
    var name := Pipeline.GetOrCreateCollection(store, email);
    var result := query(store.collections[name], Query(text, 8, SearchWhere(documentId)));
    docs, metas := FirstRow(result.documents), FirstRow(result.metadatas);
  }

  /** Against a query that honours its filter, `search` returns the texts
      and the metadata of the first eight records of the collection that the
      filter admits, in collection order, paired position by position; with
      a document id every returned record carries that id, and without one
      no record is left out before the budget is spent. */
  lemma SearchHonest(records: seq<Record>, text: string, documentId: Option<int>)
    ensures var (docs, metas) := Normalize(HonestQuery(records, Query(text, 8, SearchWhere(documentId))));
      var kept := Filtered(records, SearchWhere(documentId));
      |docs| == |metas| == Min(8, |kept|)
      && (forall i :: 0 <= i < |docs| ==> docs[i] == kept[i].document && metas[i] == kept[i].metadata)
      && (documentId.Some? ==> forall i :: 0 <= i < |metas| ==>
            "document_id" in metas[i] && metas[i]["document_id"] == MInt(documentId.value))
      && (documentId.None? ==> |docs| == Min(8, |records|) && forall i :: 0 <= i < |docs| ==> docs[i] == records[i].document)
  {
    var w := SearchWhere(documentId);
    var kept := Filtered(records, w);
    AdmittedFirst(records, w, 8);
    FilteredMembers(records, w);
    var result := HonestQuery(records, Query(text, 8, w));
    var metas := result.metadatas.value[0];
    if documentId.Some? {
      forall i | 0 <= i < |metas|
        ensures "document_id" in metas[i] && metas[i]["document_id"] == MInt(documentId.value)
      {
        assert kept[i] in kept;
        SearchWhereMatches(documentId.value, metas[i]);
      }
    } else {
      FilteredAll(records);
    }
  }

  /** The filter `search` builds for a document id matches none of the
      records the ingestion pipeline writes, since their metadata has no
      `document_id` key. */
  lemma SearchWhereMissesPipelineRecords(
    id: int, filename: string, email: string, chunks: seq<Pipeline.Passage>, i: nat)
    requires i < |chunks|
    ensures !Matches(Pipeline.ChunkMetadata(filename, email, chunks, i), SearchWhere(Some(id)).value)
  {
    Pipeline.NoDocumentIdKey(filename, email, chunks, i, id);
  }

  // ------------------------------------------------------------------
  // summarize
  // ------------------------------------------------------------------

  const SummaryBudget := 2000

  /** `summarize(chunks)`: the chunks joined by spaces, cut to the budget
      with a trailing ellipsis when cut. */
  function Summarize(chunks: seq<string>): (r: string)
    ensures chunks == [] ==> r == "No content to summarize."
    ensures chunks != [] ==> |r| <= SummaryBudget + 3
    ensures chunks != [] && |Join(chunks, " ")| <= SummaryBudget ==> r == Join(chunks, " ")
    ensures chunks != [] && |Join(chunks, " ")| > SummaryBudget ==>
      |r| == SummaryBudget + 3 && IsPrefix(r[..SummaryBudget], Join(chunks, " ")) && r[SummaryBudget..] == "..."
  {
    if chunks == [] then "No content to summarize."
    else
      var text := Join(chunks, " ");
      (if |text| <= SummaryBudget then text else text[..SummaryBudget]) + (if |text| > SummaryBudget then "..." else "")
  }

  /** Every part occurs in the joined text. */
  lemma {:induction false} JoinContainsPart(parts: seq<string>, sep: string, i: nat)
    requires i < |parts|
    ensures exists k :: OccursAt(Join(parts, sep), parts[i], k)
  {
    if |parts| == 1 {
      assert Join(parts, sep)[0..|parts[0]|] == parts[0];
      assert OccursAt(Join(parts, sep), parts[i], 0);
    } else {
      var j := Join(parts, sep);
      var tail := Join(parts[1..], sep);
      assert j == parts[0] + sep + tail;
      if i == 0 {
        assert j[0..|parts[0]|] == parts[0];
        assert OccursAt(j, parts[i], 0);
      } else {
        JoinContainsPart(parts[1..], sep, i - 1);
        var k :| OccursAt(tail, parts[1..][i - 1], k);
        var off := |parts[0]| + |sep|;
        assert j[off + k..off + k + |parts[i]|] == tail[k..k + |parts[i]|];
        assert OccursAt(j, parts[i], off + k);
      }
    }
  }

  /** A summary within budget keeps every chunk whole. */
  lemma SummaryKeepsChunks(chunks: seq<string>, i: nat)
    requires i < |chunks| && |Join(chunks, " ")| <= SummaryBudget
    ensures Contains(Summarize(chunks), chunks[i])
  {
    JoinContainsPart(chunks, " ", i);
    ContainsIff(Summarize(chunks), chunks[i]);
  }

  // ------------------------------------------------------------------
  // extract
  // ------------------------------------------------------------------

  /** `keyword in chunk.lower()` with `keyword = field.lower()`. */
  predicate Mentions(chunk: string, field: string)
  {
    Contains(Lower(chunk), Lower(field))
  }

  /** The chunks that mention the lower-cased keyword, in order. */
  function Filter(chunks: seq<string>, field: string): seq<string>
  {
    if chunks == [] then []
    else (if Mentions(chunks[0], field) then [chunks[0]] else []) + Filter(chunks[1..], field)
  }

  /** `extract(chunks, field)`. */
  function Extract(chunks: seq<string>, field: string): (r: seq<string>)
    ensures chunks == [] ==> r == []
    ensures |r| <= |chunks|
  {
    if chunks == [] then [] else FilterLength(chunks, field); Filter(chunks, field)
  }

  lemma {:induction false} FilterLength(chunks: seq<string>, field: string)
    ensures |Filter(chunks, field)| <= |chunks|
  {
    if chunks != [] {
      FilterLength(chunks[1..], field);
    }
  }

  /** `picks` are increasing positions of `b` holding the elements of `a`. */
  ghost predicate Picks(picks: seq<nat>, a: seq<string>, b: seq<string>)
  {
    |picks| == |a|
    && (forall i :: 0 <= i < |picks| ==> picks[i] < |b| && b[picks[i]] == a[i])
    && (forall i, j :: 0 <= i < j < |picks| ==> picks[i] < picks[j])
  }

  /** `a` is `b` with some elements left out, the rest in their order. */
  ghost predicate IsSubsequence(a: seq<string>, b: seq<string>)
  {
    exists picks: seq<nat> :: Picks(picks, a, b)
  }

  /** Picks into the tail of `b`, moved one place on, with the head of `b`
      picked first when it is kept. */
  lemma ShiftPicks(rest: seq<nat>, tail: seq<string>, b: seq<string>, keep: bool) returns (picks: seq<nat>)
    requires b != [] && Picks(rest, tail, b[1..])
    ensures Picks(picks, (if keep then [b[0]] else []) + tail, b)
  {
    var a := (if keep then [b[0]] else []) + tail;
    var head: seq<nat> := if keep then [0] else [];
    var shifted := seq(|rest|, i requires 0 <= i < |rest| => rest[i] + 1);
    picks := head + shifted;
    forall i | 0 <= i < |picks| ensures picks[i] < |b| && b[picks[i]] == a[i] {
      if i >= |head| {
        var k := i - |head|;
        assert picks[i] == rest[k] + 1;
        assert b[picks[i]] == b[1..][rest[k]];
        assert a[i] == tail[k];
      }
    }
    forall i, j | 0 <= i < j < |picks| ensures picks[i] < picks[j] {
      assert picks[j] == rest[j - |head|] + 1;
      if i >= |head| {
        assert picks[i] == rest[i - |head|] + 1;
      }
    }
  }

  /** The positions of `chunks` that `Filter` keeps, in increasing order. */
  lemma {:induction false} FilterPicks(chunks: seq<string>, field: string) returns (picks: seq<nat>)
    ensures Picks(picks, Filter(chunks, field), chunks)
  {
    if chunks == [] {
      picks := [];
    } else {
      var rest := FilterPicks(chunks[1..], field);
      picks := ShiftPicks(rest, Filter(chunks[1..], field), chunks, Mentions(chunks[0], field));
    }
  }

  /** Extraction keeps an order-preserving subsequence of the chunks. */
  lemma ExtractSubsequence(chunks: seq<string>, field: string)
    ensures IsSubsequence(Extract(chunks, field), chunks)
  {
    var picks := FilterPicks(chunks, field);
    if chunks == [] {
      var none: seq<nat> := [];
      assert Picks(none, Extract(chunks, field), chunks);
    } else {
      assert Picks(picks, Extract(chunks, field), chunks);
    }
  }

  lemma {:induction false} FilterCount(chunks: seq<string>, field: string, x: string)
    ensures multiset(Filter(chunks, field))[x] == if Mentions(x, field) then multiset(chunks)[x] else 0
  {
    if chunks != [] {
      FilterCount(chunks[1..], field, x);
      assert chunks == [chunks[0]] + chunks[1..];
      assert multiset(chunks) == multiset([chunks[0]]) + multiset(chunks[1..]);
    }
  }

  /** A chunk is kept exactly when it mentions the keyword, and then as
      often as it occurs: extraction is sound and complete. */
  lemma ExtractKeepsExactlyMentions(chunks: seq<string>, field: string, x: string)
    ensures multiset(Extract(chunks, field))[x] == if Mentions(x, field) then multiset(chunks)[x] else 0
    ensures x in Extract(chunks, field) <==> x in chunks && Mentions(x, field)
  {
    if chunks != [] {
      FilterCount(chunks, field, x);
    }
  }

  lemma {:induction false} FilterIdempotent(chunks: seq<string>, field: string)
    ensures Filter(Filter(chunks, field), field) == Filter(chunks, field)
  {
    if chunks != [] {
      var tail := Filter(chunks[1..], field);
      FilterIdempotent(chunks[1..], field);
      if Mentions(chunks[0], field) {
        var r := [chunks[0]] + tail;
        assert Filter(chunks, field) == r;
        assert r[1..] == tail;
        assert Filter(r, field) == [chunks[0]] + Filter(tail, field);
      } else {
        assert Filter(chunks, field) == [] + tail == tail;
      }
    }
  }

  /** Extracting twice with the same keyword keeps what the first pass kept. */
  lemma ExtractIdempotent(chunks: seq<string>, field: string)
    ensures Extract(Extract(chunks, field), field) == Extract(chunks, field)
  {
    if chunks != [] {
      FilterIdempotent(chunks, field);
    }
  }
}
