/**
 * The chat endpoint: retrieval of context chunks from the user's collection,
 * the numbered context and citation list built from them, the prompt, and
 * the server-sent event stream of the model's tokens followed by the
 * citations and an end marker. The language model is a parameter that maps
 * a prompt to the tokens it streams.
 */
module Chat {
  import opened Wrappers
  import opened Strings
  import opened VectorStore
  import Json
  import Pipeline
  import Helpers

  /** `n_results` of both queries. */
  const ResultCount: nat := 6

  const DoneEvent := "data: [DONE]\n\n"

  const NoContext := "No relevant documents found."

  const PromptHead := "You are a helpful AI assistant. Answer using ONLY this context:\n\n"

  const QuestionLabel := "\n\nQuestion: "

  const PromptRules := "\n\nRules:\n- If question is vague, ask for clarification\n- If no relevant info exists, say so clearly\n\n\nAnswer naturally. Cite sources with [1], [2] if used.\nIf no info, say: \"I don't have information about that in your documents.\"\n"

  /** `not message or not message.strip()`. */
  predicate IsBlank(message: string)
  {
    Strip(message) == []
  }

  /** The filter `{"$or": [{"source": d} for d in selected_docs]}`, built
      when the selection is a non-empty list. */
  function ChatWhere(selected: Option<seq<string>>): (r: Option<Where>)
    ensures r.None? <==> selected.None? || selected.value == []
  {
    if selected.Some? && selected.value != [] then
      Some(AnyOf(seq(|selected.value|, i requires 0 <= i < |selected.value| => Eq("source", MStr(selected.value[i])))))
    else None
  }

  /** The selection filter admits exactly the records whose `source` is a
      selected name. */
  lemma ChatWhereMatches(selected: seq<string>, meta: Metadata)
    requires selected != []
    ensures Matches(meta, ChatWhere(Some(selected)).value) <==>
      "source" in meta && meta["source"].MStr? && meta["source"].s in selected
  {
    var w := ChatWhere(Some(selected)).value;
    if "source" in meta && meta["source"].MStr? && meta["source"].s in selected {
      var i :| 0 <= i < |selected| && selected[i] == meta["source"].s;
      assert Matches(meta, w.clauses[i]);
    }
  }

  /** A chunk that the pipeline stored for `filename` is admitted exactly
      when `filename` is selected. */
  lemma SelectionAdmitsPipelineRecord(
    selected: seq<string>, filename: string, email: string, chunks: seq<Pipeline.Passage>, i: nat)
    requires selected != [] && i < |chunks|
    ensures Matches(Pipeline.ChunkMetadata(filename, email, chunks, i), ChatWhere(Some(selected)).value)
      <==> filename in selected
  {
    ChatWhereMatches(selected, Pipeline.ChunkMetadata(filename, email, chunks, i));
  }

  // ------------------------------------------------------------------
  // Context and citations
  // ------------------------------------------------------------------

  /** One entry of the citation list: the chunk's source and its page, or
      `"?"` when it has none. */
  datatype Citation = Citation(source: MetaValue, page: MetaValue)

  /** The numbered context parts and the citations, one of each per
      retrieved chunk. */
  datatype Context = Context(parts: seq<string>, sources: seq<Citation>)

  /** The exceptions the loop raises: no metadata row to pair with the
      documents (`None[0]` or `[][0]`), or a chunk without `source`. */
  datatype ChatError = NoMetadataRow | NoSource

  /** `f"[{i+1}] {doc}"`. */
  function Part(i: nat, doc: string): (r: string)
    ensures IsPrefix("[", r) && IsSuffix(doc, r)
  {
    assert IsSuffix(doc, "[" + NatText(i + 1) + "] " + doc);
    "[" + NatText(i + 1) + "] " + doc
  }

  /** `{"source": meta["source"], "page": meta.get("page", "?")}`. */
  function CitationOf(meta: Metadata): (r: Citation)
    requires "source" in meta
    ensures r.source == meta["source"]
    ensures r.page == if "page" in meta then meta["page"] else MStr("?")
  {
    Citation(meta["source"], if "page" in meta then meta["page"] else MStr("?"))
  }

  /** What the context loop produces for a query result: nothing when the
      first document row is missing or empty; otherwise the documents paired
      with the metadata row as `zip` pairs them (up to the shorter one). */
  function ContextOf(result: QueryResult): (r: Result<Context, ChatError>)
  {
    var docs := Helpers.FirstRow(result.documents);
    if docs == [] then Ok(Context([], []))
    else if result.metadatas.None? || result.metadatas.value == [] then Err(NoMetadataRow)
    else
      var metas := result.metadatas.value[0];
      var n := Min(|docs|, |metas|);
      if exists j :: 0 <= j < n && "source" !in metas[j] then Err(NoSource)
      else
        Ok(Context(
          seq(n, j requires 0 <= j < n => Part(j, docs[j])),
          seq(n, j requires 0 <= j < n && "source" in metas[j] => CitationOf(metas[j]))))
  }

  /** The context loop, which builds the two lists entry by entry. */
  method BuildContext(result: QueryResult) returns (r: Result<Context, ChatError>)
    ensures r == ContextOf(result)
  {
    var docs := Helpers.FirstRow(result.documents);
    if docs == [] {
      return Ok(Context([], []));
    }
    if result.metadatas.None? || result.metadatas.value == [] {
      return Err(NoMetadataRow);
    }
    var metas := result.metadatas.value[0];
    var n := Min(|docs|, |metas|);
    var parts: seq<string> := [];
    var sources: seq<Citation> := [];
    var i := 0;
    while i < n
      invariant 0 <= i <= n
      invariant forall j :: 0 <= j < i ==> "source" in metas[j]
      invariant |parts| == i && forall j :: 0 <= j < i ==> parts[j] == Part(j, docs[j])
      invariant |sources| == i && forall j :: 0 <= j < i ==> sources[j] == CitationOf(metas[j])
    {
      parts := parts + [Part(i, docs[i])];
      if "source" !in metas[i] {
        assert exists j :: 0 <= j < n && "source" !in metas[j];
        return Err(NoSource);
      }
      sources := sources + [CitationOf(metas[i])];
      i := i + 1;
    }
    assert parts == seq(n, j requires 0 <= j < n => Part(j, docs[j]));
    assert sources == seq(n, j requires 0 <= j < n && "source" in metas[j] => CitationOf(metas[j]));
    r := Ok(Context(parts, sources));
  }

  /** The loop fails exactly when there are documents and either no
      metadata row or a paired chunk without `source`. */
  lemma ContextErrors(result: QueryResult)
    ensures ContextOf(result) == Err(NoMetadataRow) <==>
      Helpers.FirstRow(result.documents) != [] && (result.metadatas.None? || result.metadatas.value == [])
    ensures ContextOf(result) == Err(NoSource) <==>
      var docs := Helpers.FirstRow(result.documents);
      docs != [] && result.metadatas.Some? && result.metadatas.value != []
      && exists j :: 0 <= j < |docs| && j < |result.metadatas.value[0]| && "source" !in result.metadatas.value[0][j]
  {
  }

  /** On success there is one numbered part and one citation per paired
      chunk, in retrieval order. */
  lemma ContextEntries(result: QueryResult, j: nat)
    requires ContextOf(result).Ok?
    requires Helpers.FirstRow(result.documents) != []
    ensures var c := ContextOf(result).value;
      var docs := Helpers.FirstRow(result.documents);
      var metas := result.metadatas.value[0];
      |c.parts| == |c.sources| == Min(|docs|, |metas|)
      && (j < |c.parts| ==>
            c.parts[j] == "[" + NatText(j + 1) + "] " + docs[j]
            && "source" in metas[j] && c.sources[j] == CitationOf(metas[j]))
  {
  }

  /** `"\n\n".join(context_parts)`, or a fixed note when nothing was found. */
  function ContextText(parts: seq<string>): (r: string)
    ensures parts == [] ==> r == NoContext
    ensures forall i :: 0 <= i < |parts| ==> Contains(r, parts[i])
  {
    forall i | 0 <= i < |parts| ensures Contains(Join(parts, "\n\n"), parts[i]) {
      Helpers.JoinContainsPart(parts, "\n\n", i);
      ContainsIff(Join(parts, "\n\n"), parts[i]);
    }
    if parts == [] then NoContext else Join(parts, "\n\n")
  }

  function Prompt(context: string, message: string): string
  {
    PromptHead + context + QuestionLabel + message + PromptRules
  }

  /** The prompt carries the context and the question whole. */
  lemma PromptCarries(context: string, message: string)
    ensures Contains(Prompt(context, message), context)
    ensures Contains(Prompt(context, message), message)
  {
    var p := Prompt(context, message);
    var k := |PromptHead| + |context| + |QuestionLabel|;
    assert p[|PromptHead|..|PromptHead| + |context|] == context;
    assert OccursAt(p, context, |PromptHead|);
    assert p[k..k + |message|] == message;
    assert OccursAt(p, message, k);
    ContainsIff(p, context);
    ContainsIff(p, message);
  }

  /** Every retrieved chunk's text reaches the model. */
  lemma PromptCarriesChunks(result: QueryResult, message: string, j: nat)
    requires ContextOf(result).Ok? && j < |ContextOf(result).value.parts|
    ensures Contains(Prompt(ContextText(ContextOf(result).value.parts), message), Helpers.FirstRow(result.documents)[j])
  {
    var parts := ContextOf(result).value.parts;
    var text := ContextText(parts);
    PromptCarries(text, message);
    SuffixContained(Helpers.FirstRow(result.documents)[j], parts[j]);
    ContainsTrans(text, parts[j], Helpers.FirstRow(result.documents)[j]);
    ContainsTrans(Prompt(text, message), text, Helpers.FirstRow(result.documents)[j]);
  }

  // ------------------------------------------------------------------
  // The event stream
  // ------------------------------------------------------------------

  function MetaJson(v: MetaValue): Json.Value
  {
    match v
    case MStr(s) => Json.Str(s)
    case MInt(i) => Json.Int(i)
    case MBool(b) => Json.Bool(b)
  }

  function CitationJson(c: Citation): Json.Value
  {
    Json.Obj([Json.Member("source", MetaJson(c.source)), Json.Member("page", MetaJson(c.page))])
  }

  function CitationsJson(sources: seq<Citation>): (r: Json.Value)
    ensures r.Arr? && |r.items| == |sources|
    ensures forall i :: 0 <= i < |sources| ==> r.items[i] == CitationJson(sources[i])
  {
    Json.Arr(seq(|sources|, i requires 0 <= i < |sources| => CitationJson(sources[i])))
  }

  /** `"data: " + payload + "\n\n"`. */
  function Event(payload: Json.Value): string
  {
    "data: " + Json.Dumps(payload) + "\n\n"
  }

  /** `f"data: {json.dumps({'content': chunk})}\n\n"`. */
  function ContentEvent(token: string): string
  {
    Event(Json.Obj([Json.Member("content", Json.Str(token))]))
  }

  /** `f"data: {json.dumps({'citations': sources})}\n\n"`. */
  function CitationsEvent(sources: seq<Citation>): string
  {
    Event(Json.Obj([Json.Member("citations", CitationsJson(sources))]))
  }

  /** The events `stream()` yields: one per token, then the citations, then
      the end marker. */
  function Stream(tokens: seq<string>, sources: seq<Citation>): (r: seq<string>)
    ensures |r| == |tokens| + 2
    ensures r[|tokens|] == CitationsEvent(sources) && r[|tokens| + 1] == DoneEvent
    ensures forall i :: 0 <= i < |tokens| ==> r[i] == ContentEvent(tokens[i])
  {
    seq(|tokens|, i requires 0 <= i < |tokens| => ContentEvent(tokens[i])) + [CitationsEvent(sources), DoneEvent]
  }

  /** The generator `stream()`. */
  method StreamEvents(tokens: seq<string>, sources: seq<Citation>) returns (events: seq<string>)
    ensures events == Stream(tokens, sources)
  {
    events := [];
    for i := 0 to |tokens|
      invariant |events| == i
      invariant forall j :: 0 <= j < i ==> events[j] == ContentEvent(tokens[j])
    {
      events := events + [ContentEvent(tokens[i])];
    }
    events := events + [CitationsEvent(sources)];
    events := events + [DoneEvent];
  }

  /** Every event is one `data:` line, holding the dumped payload and no
      line break, followed by a blank line. */
  lemma EventFraming(payload: Json.Value)
    ensures var e := Event(payload);
      |e| >= 2 && e[..|e| - 2] == "data: " + Json.Dumps(payload) && e[|e| - 2..] == "\n\n"
      && '\n' !in e[..|e| - 2]
  {
    var e := Event(payload);
    var line := "data: " + Json.Dumps(payload);
    Json.DumpsHasNoNewline(payload);
    assert e == line + "\n\n";
    assert e[..|e| - 2] == line;
    assert '\n' !in line by {
      forall k | 0 <= k < |line| ensures line[k] != '\n' {
        if k >= 6 {
          assert line[k] == Json.Dumps(payload)[k - 6];
        }
      }
    }
  }

  // ------------------------------------------------------------------
  // The endpoint
  // ------------------------------------------------------------------

  /** The retrieval as written: the filtered query's answer is discarded and
      the context comes from a second query without a filter. */
  function RetrievedContext(
    collection: seq<Record>, message: string, selected: Option<seq<string>>,
    query: (seq<Record>, Query) -> QueryResult): Result<Context, ChatError>
  {
    ContextOf(query(collection, Query(message, ResultCount, None)))
  }

  /** The response stream of a message against one collection. */
  function Respond(
    collection: seq<Record>, message: string, selected: Option<seq<string>>,
    query: (seq<Record>, Query) -> QueryResult, llm: string -> seq<string>): Result<seq<string>, ChatError>
  {
    if IsBlank(message) then Ok([DoneEvent])
    else
      match RetrievedContext(collection, message, selected, query)
      case Err(e) => Err(e)
      case Ok(c) => Ok(Stream(llm(Prompt(ContextText(c.parts), message)), c.sources))
  }

  /** `chat(request, current_user)`. A blank message is answered with the
      end marker alone, before the collection is touched; otherwise the
      user's collection is fetched or created, queried twice, and the
      answer streamed. */
  method HandleChat(
    store: Store, email: string, message: string, selected: Option<seq<string>>,
    query: (seq<Record>, Query) -> QueryResult, llm: string -> seq<string>)
    returns (r: Result<seq<string>, ChatError>)
    modifies store
    ensures IsBlank(message) ==> r == Ok([DoneEvent]) && store.collections == old(store.collections)
    ensures !IsBlank(message) ==>
      var name := Pipeline.CollectionName(email);
      store.collections == GetOrCreate(old(store.collections), name)
      && r == Respond(store.collections[name], message, selected, query, llm)
  {
    if IsBlank(message) {
      return Ok([DoneEvent]);
    }
    var name := Pipeline.GetOrCreateCollection(store, email);
    var filtered := query(store.collections[name], Query(message, ResultCount, ChatWhere(selected)));
    var results := query(store.collections[name], Query(message, ResultCount, None));
    var context := BuildContext(results);
    if context.Err? {
      return Err(context.error);
    }
    var tokens := llm(Prompt(ContextText(context.value.parts), message));
    var events := StreamEvents(tokens, context.value.sources);
    r := Ok(events);
  }

  /** A blank message yields only the end marker. */
  lemma BlankMessage(collection: seq<Record>, message: string, selected: Option<seq<string>>,
    query: (seq<Record>, Query) -> QueryResult, llm: string -> seq<string>)
    requires forall i :: 0 <= i < |message| ==> IsSpace(message[i])
    ensures Respond(collection, message, selected, query, llm) == Ok([DoneEvent])
  {
    StripEmptyIff(message);
  }

  /** A successful response streams the model's tokens for the prompt, then
      the citations of the retrieved chunks, then the end marker. */
  lemma ResponseShape(collection: seq<Record>, message: string, selected: Option<seq<string>>,
    query: (seq<Record>, Query) -> QueryResult, llm: string -> seq<string>)
    requires !IsBlank(message)
    requires Respond(collection, message, selected, query, llm).Ok?
    ensures var events := Respond(collection, message, selected, query, llm).value;
      var c := RetrievedContext(collection, message, selected, query).value;
      var tokens := llm(Prompt(ContextText(c.parts), message));
      |events| == |tokens| + 2
      && events[|events| - 1] == DoneEvent
      && events[|events| - 2] == CitationsEvent(c.sources)
      && forall i :: 0 <= i < |tokens| ==> events[i] == ContentEvent(tokens[i])
  {
  }

  // ------------------------------------------------------------------
  // The selection is ignored
  // ------------------------------------------------------------------

  /** Citations name only selected documents when the result came from a
      query that applied the selection filter. */
  lemma FilteredCitations(result: QueryResult, selected: seq<string>, j: nat)
    requires selected != []
    requires result.metadatas.Some? && result.metadatas.value != []
    requires forall m :: m in result.metadatas.value[0] ==> Matches(m, ChatWhere(Some(selected)).value)
    requires ContextOf(result).Ok? && j < |ContextOf(result).value.sources|
    ensures var s := ContextOf(result).value.sources[j].source; s.MStr? && s.s in selected
  {
    var metas := result.metadatas.value[0];
    assert metas[j] in metas;
    ChatWhereMatches(selected, metas[j]);
  }

  /** As written, selecting documents does not keep others out: with a
      query that honours filters, selecting two documents in a collection
      holding only a chunk of a third still yields a citation of the third.
      (With one selected name the `$or` has a single clause, which the
      store's filter validation rejects at the first query.) */
  lemma SelectionIgnored(chosen1: string, chosen2: string, other: string, text: string, message: string)
    requires chosen1 != other && chosen2 != other
    ensures var meta := map["source" := MStr(other)];
      var collection := [Record("0", text, meta)];
      var c := RetrievedContext(collection, message, Some([chosen1, chosen2]), HonestQuery);
      c.Ok? && c.value.sources == [Citation(MStr(other), MStr("?"))]
      && !Matches(meta, ChatWhere(Some([chosen1, chosen2])).value)
  {
    var meta := map["source" := MStr(other)];
    var collection := [Record("0", text, meta)];
    var kept := Admitted(collection, None, ResultCount);
    assert kept == [Record("0", text, meta)] by {
      assert Admitted(collection[1..], None, ResultCount - 1) == [];
    }
    var result := HonestQuery(collection, Query(message, ResultCount, None));
    assert result.documents.value[0] == [text];
    assert result.metadatas.value[0] == [meta];
    ChatWhereMatches([chosen1, chosen2], meta);
  }

  /** The retrieval the endpoint evidently intends: one query, filtered by
      the selection. */
  function SelectedContext(
    collection: seq<Record>, message: string, selected: Option<seq<string>>,
    query: (seq<Record>, Query) -> QueryResult): Result<Context, ChatError>
  {
    ContextOf(query(collection, Query(message, ResultCount, ChatWhere(selected))))
  }

  /** With the filtered query, every citation names a selected document. */
  lemma SelectedContextCitesSelection(
    collection: seq<Record>, message: string, selected: seq<string>, j: nat)
    requires selected != []
    requires SelectedContext(collection, message, Some(selected), HonestQuery).Ok?
    requires j < |SelectedContext(collection, message, Some(selected), HonestQuery).value.sources|
    ensures var s := SelectedContext(collection, message, Some(selected), HonestQuery).value.sources[j].source;
      s.MStr? && s.s in selected
  {
    var w := ChatWhere(Some(selected));
    var result := HonestQuery(collection, Query(message, ResultCount, w));
    var kept := Admitted(collection, w, ResultCount);
    AdmittedFirst(collection, w, ResultCount);
    FilteredMembers(collection, w);
    forall m | m in result.metadatas.value[0] ensures Matches(m, w.value) {
      var i :| 0 <= i < |kept| && kept[i].metadata == m;
      assert kept[i] in Filtered(collection, w);
    }
    FilteredCitations(result, selected, j);
  }
}
