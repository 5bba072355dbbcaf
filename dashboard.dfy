/**
 * The chat page's message handler: it appends the user's message and an
 * empty assistant message, posts the text to the chat endpoint, and fills
 * the assistant message from the event stream as it arrives. The message
 * list is the component's state; every change to the assistant message is
 * a `map` over the whole list that rewrites each message carrying the
 * assistant message's id.
 */
module Dashboard {
  import opened Wrappers
  import opened Strings
  import Json
  import Chat
  import VectorStore

  const ErrorText := "Sorry, I couldn't respond right now."

  const Separator := "\n\n"

  const DataPrefix := "data: "

  /** A chat message as the page keeps it; fields a message does not have
      are `None`. */
  datatype Message = Message(
    id: int, role: string, content: string,
    file: Option<Json.Value>, citations: Option<Json.Value>, isStreaming: Option<bool>)

  /** `{id, role: "user", content: text, file: metadata}`. */
  function UserMessage(id: int, text: string, metadata: Json.Value): Message
  {
    Message(id, "user", text, Some(metadata), None, None)
  }

  /** `{id, role: "assistant", content: "", citations: [], isStreaming: true}`. */
  function AssistantMessage(id: int): Message
  {
    Message(id, "assistant", "", None, Some(Json.Arr([])), Some(true))
  }

  /** `metadata?.skipAIResponse` is truthy: a file notice, not a question. */
  predicate SkipsAi(metadata: Json.Value)
  {
    var f := Json.Field(metadata, "skipAIResponse");
    f.Some? && Json.Truthy(f.value)
  }

  /** The three rewrites of the assistant message. */
  datatype Update = AddContent(text: string) | Finish(citations: Json.Value) | Fail

  function Apply(m: Message, u: Update): (r: Message)
    ensures r.id == m.id && r.role == m.role && r.file == m.file
  {
    match u
    case AddContent(t) => m.(content := m.content + t)
    case Finish(c) => m.(citations := Some(c), isStreaming := Some(false))
    case Fail => m.(content := ErrorText, isStreaming := Some(false))
  }

  /** `prev.map(m => m.id === aiId ? update(m) : m)`. */
  function MapUpdate(msgs: seq<Message>, aiId: int, u: Update): (r: seq<Message>)
    ensures |r| == |msgs|
    ensures forall i :: 0 <= i < |msgs| ==> r[i].id == msgs[i].id
    ensures forall i :: 0 <= i < |msgs| && msgs[i].id != aiId ==> r[i] == msgs[i]
    ensures forall i :: 0 <= i < |msgs| && msgs[i].id == aiId ==> r[i] == Apply(msgs[i], u)
  {
    seq(|msgs|, i requires 0 <= i < |msgs| => if msgs[i].id == aiId then Apply(msgs[i], u) else msgs[i])
  }

  /** The rewrites applied one after another to the whole list. */
  function UpdateAll(msgs: seq<Message>, aiId: int, us: seq<Update>): seq<Message>
    decreases |us|
  {
    if us == [] then msgs else MapUpdate(UpdateAll(msgs, aiId, us[..|us| - 1]), aiId, us[|us| - 1])
  }

  /** The rewrites applied one after another to one message. */
  function ApplyAll(m: Message, us: seq<Update>): Message
    decreases |us|
  {
    if us == [] then m else Apply(ApplyAll(m, us[..|us| - 1]), us[|us| - 1])
  }

  /** The rewrites of each element, in order. */
  function FlatMap<T>(xs: seq<T>, f: T -> seq<Update>): seq<Update>
    decreases |xs|
  {
    if xs == [] then [] else FlatMap(xs[..|xs| - 1], f) + f(xs[|xs| - 1])
  }

  lemma {:induction false} FlatMapAppend<T>(a: seq<T>, b: seq<T>, f: T -> seq<Update>)
    ensures FlatMap(a + b, f) == FlatMap(a, f) + FlatMap(b, f)
    decreases |b|
  {
    if b == [] {
      assert a + b == a;
    } else {
      assert (a + b)[..|a + b| - 1] == a + b[..|b| - 1];
      FlatMapAppend(a, b[..|b| - 1], f);
    }
  }

  /** Element-wise equal rewrites flatten to the same sequence. */
  lemma {:induction false} FlatMapPointwise<A, B>(xs: seq<A>, ys: seq<B>, f: A -> seq<Update>, g: B -> seq<Update>)
    requires |xs| == |ys|
    requires forall i :: 0 <= i < |xs| ==> f(xs[i]) == g(ys[i])
    ensures FlatMap(xs, f) == FlatMap(ys, g)
    decreases |xs|
  {
    if xs != [] {
      FlatMapPointwise(xs[..|xs| - 1], ys[..|ys| - 1], f, g);
    }
  }

  lemma FlatMapOne<T>(x: T, f: T -> seq<Update>)
    ensures FlatMap([x], f) == f(x)
  {
    assert [x][..0] == [];
  }

  // ------------------------------------------------------------------
  // What the stream means
  // ------------------------------------------------------------------

  /** The rewrites one parsed event causes: its `content`, when truthy, is
      appended as text; its `citations`, when truthy, are stored and end the
      streaming state. */
  function ParsedUpdates(parsed: Json.Value): seq<Update>
  {
    var c := Json.Field(parsed, "content");
    var t := Json.Field(parsed, "citations");
    (if c.Some? && Json.Truthy(c.value) then [AddContent(Json.JsText(c.value))] else [])
    + (if t.Some? && Json.Truthy(t.value) then [Finish(t.value)] else [])
  }

  /** The end marker and text that does not parse change nothing. */
  function DataUpdates(data: string): seq<Update>
  {
    if data == "[DONE]" then []
    else
      match Json.Parse(data)
      case None => []
      case Some(v) => ParsedUpdates(v)
  }

  /** A line that does not start with `data: ` is skipped. */
  function LineUpdates(line: string): seq<Update>
  {
    if IsPrefix(DataPrefix, line) then DataUpdates(line[|DataPrefix|..]) else []
  }

  function LinesUpdates(lines: seq<string>): seq<Update>
  {
    FlatMap(lines, LineUpdates)
  }

  /** Each chunk read is split on blank lines by itself. */
  function ChunkUpdates(chunk: string): seq<Update>
  {
    LinesUpdates(Split(chunk, Separator))
  }

  function ChunksUpdates(chunks: seq<string>): seq<Update>
  {
    FlatMap(chunks, ChunkUpdates)
  }

  /** The answer of the fetch: a rejection or a status other than 2xx, or a
      body read as a sequence of chunks; `completed` is false when a read
      fails after those chunks. */
  datatype Response = Failed | Body(chunks: seq<string>, completed: bool)

  function ResponseUpdates(response: Response): seq<Update>
  {
    match response
    case Failed => [Fail]
    case Body(chunks, completed) => ChunksUpdates(chunks) + (if completed then [] else [Fail])
  }

  /** The message list after `handleNewMessage(text, metadata)`, where the
      two calls of `Date.now()` return `now1` and `now2`. */
  function HandleSpec(msgs: seq<Message>, text: string, metadata: Json.Value, now1: int, now2: int, response: Response): (r: seq<Message>)
    ensures |r| == |msgs| + if SkipsAi(metadata) then 1 else 2
  {
    var withUser := msgs + [UserMessage(now1, text, metadata)];
    if SkipsAi(metadata) then withUser
    else
      var start := withUser + [AssistantMessage(now2 + 1)];
      UpdateAllLength(start, now2 + 1, ResponseUpdates(response));
      UpdateAll(start, now2 + 1, ResponseUpdates(response))
  }

  // ------------------------------------------------------------------
  // The component
  // ------------------------------------------------------------------

  class ChatView {
    var messages: seq<Message>

    constructor ()
      ensures messages == []
    {
      messages := [];
    }

    /** One line of a chunk: the body of the inner `for` loop. A line
        that does not parse is skipped by the empty `catch`. */
    method HandleLine(aiId: int, line: string)
      modifies this
      ensures messages == UpdateAll(old(messages), aiId, LineUpdates(line))
    {
      if !IsPrefix(DataPrefix, line) {
        return;
      }
      var data := line[|DataPrefix|..];
      if data == "[DONE]" {
        return;
      }
      var parsed := Json.Parse(data);
      if parsed.None? {
        return;
      }
      HandleParsed(aiId, parsed.value);
    }

    /** The two `if`s on a parsed event. */
    method HandleParsed(aiId: int, parsed: Json.Value)
      modifies this
      ensures messages == UpdateAll(old(messages), aiId, ParsedUpdates(parsed))
    {
      ghost var start := messages;
      var c := Json.Field(parsed, "content");
      ghost var first: seq<Update> := [];
      if c.Some? && Json.Truthy(c.value) {
        first := [AddContent(Json.JsText(c.value))];
        messages := MapUpdate(messages, aiId, AddContent(Json.JsText(c.value)));
      }
      assert messages == UpdateAll(start, aiId, first);
      var t := Json.Field(parsed, "citations");
      if t.Some? && Json.Truthy(t.value) {
        var us := first + [Finish(t.value)];
        assert us[..|us| - 1] == first;
        messages := MapUpdate(messages, aiId, Finish(t.value));
        assert messages == UpdateAll(start, aiId, us);
      } else {
        assert first + [] == first;
      }
    }

    /** One chunk read from the body, split into lines on blank lines. */
    method HandleChunk(aiId: int, chunk: string)
      modifies this
      ensures messages == UpdateAll(old(messages), aiId, ChunkUpdates(chunk))
    {
      var lines := Split(chunk, Separator);
      ghost var before := messages;
      var j := 0;
      while j < |lines|
        invariant 0 <= j <= |lines|
        invariant messages == UpdateAll(before, aiId, LinesUpdates(lines[..j]))
      {
        HandleLine(aiId, lines[j]);
        UpdateAllAppend(before, aiId, LinesUpdates(lines[..j]), LineUpdates(lines[j]));
        assert lines[..j + 1][..j] == lines[..j];
        assert LinesUpdates(lines[..j + 1]) == LinesUpdates(lines[..j]) + LineUpdates(lines[j]);
        j := j + 1;
      }
      assert lines[..|lines|] == lines;
    }

    /** `handleNewMessage(text, metadata)`. */
    method HandleNewMessage(text: string, metadata: Json.Value, now1: int, now2: int, response: Response)
      modifies this
      ensures messages == HandleSpec(old(messages), text, metadata, now1, now2, response)
    {
      messages := messages + [UserMessage(now1, text, metadata)];
      if SkipsAi(metadata) {
        return;
      }
      var aiId := now2 + 1;
      messages := messages + [AssistantMessage(aiId)];
      ghost var start := messages;
      if response.Failed? {
        messages := MapUpdate(messages, aiId, Fail);
        assert [Fail][..0] == [];
        return;
      }
      var chunks := response.chunks;
      var k := 0;
      while k < |chunks|
        invariant 0 <= k <= |chunks|
        invariant messages == UpdateAll(start, aiId, ChunksUpdates(chunks[..k]))
      {
        HandleChunk(aiId, chunks[k]);
        UpdateAllAppend(start, aiId, ChunksUpdates(chunks[..k]), ChunkUpdates(chunks[k]));
        assert chunks[..k + 1][..k] == chunks[..k];
        assert ChunksUpdates(chunks[..k + 1]) == ChunksUpdates(chunks[..k]) + ChunkUpdates(chunks[k]);
        k := k + 1;
      }
      assert chunks[..|chunks|] == chunks;
      if !response.completed {
        messages := MapUpdate(messages, aiId, Fail);
        UpdateAllAppend(start, aiId, ChunksUpdates(chunks), [Fail]);
        assert [Fail][..0] == [];
      } else {
        assert ChunksUpdates(chunks) + [] == ChunksUpdates(chunks);
      }
    }
  }

  // ------------------------------------------------------------------
  // Lemmas about the rewrites
  // ------------------------------------------------------------------

  lemma {:induction false} UpdateAllAppend(msgs: seq<Message>, aiId: int, a: seq<Update>, b: seq<Update>)
    ensures UpdateAll(msgs, aiId, a + b) == UpdateAll(UpdateAll(msgs, aiId, a), aiId, b)
    decreases |b|
  {
    if b == [] {
      assert a + b == a;
    } else {
      assert (a + b)[..|a + b| - 1] == a + b[..|b| - 1];
      UpdateAllAppend(msgs, aiId, a, b[..|b| - 1]);
    }
  }

  lemma {:induction false} UpdateAllLength(msgs: seq<Message>, aiId: int, us: seq<Update>)
    ensures |UpdateAll(msgs, aiId, us)| == |msgs|
    decreases |us|
  {
    if us != [] {
      UpdateAllLength(msgs, aiId, us[..|us| - 1]);
    }
  }

  lemma {:induction false} ApplyAllAppend(m: Message, a: seq<Update>, b: seq<Update>)
    ensures ApplyAll(m, a + b) == ApplyAll(ApplyAll(m, a), b)
    decreases |b|
  {
    if b == [] {
      assert a + b == a;
    } else {
      assert (a + b)[..|a + b| - 1] == a + b[..|b| - 1];
      ApplyAllAppend(m, a, b[..|b| - 1]);
    }
  }

  /** The rewrites keep the list's length and every id, leave alone each
      message without the assistant's id, and rewrite each message with it
      exactly as they rewrite a single message. */
  lemma {:induction false} UpdateAllAt(msgs: seq<Message>, aiId: int, us: seq<Update>, p: nat)
    requires p < |msgs|
    ensures |UpdateAll(msgs, aiId, us)| == |msgs|
    ensures UpdateAll(msgs, aiId, us)[p] == if msgs[p].id == aiId then ApplyAll(msgs[p], us) else msgs[p]
    decreases |us|
  {
    if us != [] {
      UpdateAllAt(msgs, aiId, us[..|us| - 1], p);
      ApplyAllId(msgs[p], us[..|us| - 1]);
    }
  }

  lemma {:induction false} ApplyAllId(m: Message, us: seq<Update>)
    ensures ApplyAll(m, us).id == m.id && ApplyAll(m, us).role == m.role && ApplyAll(m, us).file == m.file
    decreases |us|
  {
    if us != [] {
      ApplyAllId(m, us[..|us| - 1]);
    }
  }

  /** The assistant message stops streaming exactly when citations arrive
      or the request fails. */
  lemma {:induction false} StreamingFlag(m: Message, us: seq<Update>)
    ensures ApplyAll(m, us).isStreaming ==
      if exists i :: 0 <= i < |us| && !us[i].AddContent? then Some(false) else m.isStreaming
    decreases |us|
  {
    if us != [] {
      var init := us[..|us| - 1];
      StreamingFlag(m, init);
      if exists i :: 0 <= i < |init| && !init[i].AddContent? {
        var i :| 0 <= i < |init| && !init[i].AddContent?;
        assert us[i] == init[i];
      }
      if exists i :: 0 <= i < |us| && !us[i].AddContent? {
        var i :| 0 <= i < |us| && !us[i].AddContent?;
        if i < |init| {
          assert init[i] == us[i];
        }
      }
    }
  }

  /** Appended content accumulates the texts in order. */
  function Texts(us: seq<Update>): string
    decreases |us|
  {
    if us == [] then "" else Texts(us[..|us| - 1]) + (if us[|us| - 1].AddContent? then us[|us| - 1].text else "")
  }

  lemma {:induction false} ContentOf(m: Message, us: seq<Update>)
    requires forall i :: 0 <= i < |us| ==> !us[i].Fail?
    ensures ApplyAll(m, us).content == m.content + Texts(us)
    decreases |us|
  {
    if us != [] {
      ContentOf(m, us[..|us| - 1]);
      assert us[|us| - 1] in us;
    }
  }

  // ------------------------------------------------------------------
  // Properties of the handler
  // ------------------------------------------------------------------

  /** The handler appends one message, or two when an answer is requested;
      earlier messages change only when they carry the assistant message's
      id, and the user's message only when its id collides with that one. */
  lemma HandleFrame(msgs: seq<Message>, text: string, metadata: Json.Value, now1: int, now2: int, response: Response, i: nat)
    ensures i < |msgs| && (SkipsAi(metadata) || msgs[i].id != now2 + 1) ==>
      HandleSpec(msgs, text, metadata, now1, now2, response)[i] == msgs[i]
    ensures SkipsAi(metadata) || now1 != now2 + 1 ==>
      HandleSpec(msgs, text, metadata, now1, now2, response)[|msgs|] == UserMessage(now1, text, metadata)
  {
    var start := msgs + [UserMessage(now1, text, metadata)] + [AssistantMessage(now2 + 1)];
    if !SkipsAi(metadata) {
      if i < |msgs| {
        UpdateAllAt(start, now2 + 1, ResponseUpdates(response), i);
      }
      UpdateAllAt(start, now2 + 1, ResponseUpdates(response), |msgs|);
    }
  }

  /** The assistant message, last in the list, is rewritten by every update
      of the response. */
  lemma AssistantAfter(msgs: seq<Message>, text: string, metadata: Json.Value, now1: int, now2: int, response: Response)
    requires !SkipsAi(metadata)
    ensures var r := HandleSpec(msgs, text, metadata, now1, now2, response);
      |r| == |msgs| + 2 && r[|msgs| + 1] == ApplyAll(AssistantMessage(now2 + 1), ResponseUpdates(response))
  {
    var start := msgs + [UserMessage(now1, text, metadata)] + [AssistantMessage(now2 + 1)];
    UpdateAllAt(start, now2 + 1, ResponseUpdates(response), |msgs| + 1);
  }

  /** When the request fails the assistant message shows the apology and
      stops streaming. */
  lemma FailedRequest(msgs: seq<Message>, text: string, metadata: Json.Value, now1: int, now2: int)
    requires !SkipsAi(metadata)
    ensures var r := HandleSpec(msgs, text, metadata, now1, now2, Failed);
      r[|msgs| + 1] == Message(now2 + 1, "assistant", ErrorText, None, Some(Json.Arr([])), Some(false))
  {
    AssistantAfter(msgs, text, metadata, now1, now2, Failed);
    assert [Fail][..0] == [];
  }

  /** A body that ends normally without any citations event leaves the
      assistant message streaming. */
  lemma NoCitationsKeepsStreaming(msgs: seq<Message>, text: string, metadata: Json.Value, now1: int, now2: int, chunks: seq<string>)
    requires !SkipsAi(metadata)
    requires forall i :: 0 <= i < |ChunksUpdates(chunks)| ==> ChunksUpdates(chunks)[i].AddContent?
    ensures HandleSpec(msgs, text, metadata, now1, now2, Body(chunks, true))[|msgs| + 1].isStreaming == Some(true)
  {
    AssistantAfter(msgs, text, metadata, now1, now2, Body(chunks, true));
    assert ResponseUpdates(Body(chunks, true)) == ChunksUpdates(chunks);
    StreamingFlag(AssistantMessage(now2 + 1), ChunksUpdates(chunks));
  }

  // ------------------------------------------------------------------
  // Reading the endpoint's stream
  // ------------------------------------------------------------------

  /** `e` ends with `sep`, and before it holds no character that starts
      `sep`. */
  predicate Terminated(e: string, sep: string)
  {
    sep != [] && |e| >= |sep| && e[|e| - |sep|..] == sep && sep[0] !in e[..|e| - |sep|]
  }

  /** The events without their terminators. */
  function Lines(events: seq<string>, sep: string): (r: seq<string>)
    requires forall i :: 0 <= i < |events| ==> Terminated(events[i], sep)
    ensures |r| == |events|
    ensures forall i :: 0 <= i < |events| && Terminated(events[i], sep) ==> r[i] == events[i][..|events[i]| - |sep|]
  {
    seq(|events|, i requires 0 <= i < |events| && Terminated(events[i], sep) => events[i][..|events[i]| - |sep|])
  }

  function EventLines(events: seq<string>): (r: seq<string>)
    requires forall i :: 0 <= i < |events| ==> Terminated(events[i], Separator)
  {
    Lines(events, Separator)
  }

  /** A terminated event at the front of the text is split off as its line. */
  lemma SplitEvent(e: string, rest: string, sep: string)
    requires Terminated(e, sep)
    ensures Split(e + rest, sep) == [e[..|e| - |sep|]] + Split(rest, sep)
  {
    var line := e[..|e| - |sep|];
    assert e == line + sep;
    assert e + rest == line + sep + rest;
    SplitAfterPiece(line, sep, rest);
  }

  lemma LinesCons(events: seq<string>, sep: string)
    requires forall i :: 0 <= i < |events| ==> Terminated(events[i], sep)
    requires events != []
    ensures Lines(events, sep) == [events[0][..|events[0]| - |sep|]] + Lines(events[1..], sep)
  {
  }

  /** Splitting terminated events gives their lines and an empty
      remainder. */
  lemma {:induction false} SplitTerminated(events: seq<string>, sep: string)
    requires sep != []
    requires forall i :: 0 <= i < |events| ==> Terminated(events[i], sep)
    ensures Split(Concat(events), sep) == Lines(events, sep) + [""]
    decreases |events|
  {
    if events == [] {
      assert Concat(events) == "";
    } else {
      var tail := Concat(events[1..]);
      var line := events[0][..|events[0]| - |sep|];
      calc {
        Split(Concat(events), sep);
        { assert Concat(events) == events[0] + tail; }
        Split(events[0] + tail, sep);
        { SplitEvent(events[0], tail, sep); }
        [line] + Split(tail, sep);
        { SplitTerminated(events[1..], sep); }
        [line] + (Lines(events[1..], sep) + [""]);
        { LinesCons(events, sep); }
        Lines(events, sep) + [""];
      }
    }
  }

  lemma SplitFramed(events: seq<string>)
    requires forall i :: 0 <= i < |events| ==> Terminated(events[i], Separator)
    ensures Split(Concat(events), Separator) == EventLines(events) + [""]
  {
    SplitTerminated(events, Separator);
  }

  /** An event carrying a dumped object is terminated, and its line is
      parsed back and acted on. */
  lemma EventLine(payload: Json.Value)
    requires payload.Obj? && payload.members != []
    ensures var e := Chat.Event(payload);
      Terminated(e, Separator) && LineUpdates(e[..|e| - 2]) == ParsedUpdates(payload)
  {
    Chat.EventFraming(payload);
    var line := "data: " + Json.Dumps(payload);
    assert IsPrefix(DataPrefix, line);
    assert line[|DataPrefix|..] == Json.Dumps(payload);
    Json.DumpsStart(payload);
    Json.ParseDumps(payload);
    assert Json.Dumps(payload) != "[DONE]";
  }

  /** The updates of a content event: its token, when not empty. */
  function TokenUpdate(token: string): seq<Update>
  {
    if token != [] then [AddContent(token)] else []
  }

  lemma ContentParsed(token: string)
    ensures ParsedUpdates(Json.Obj([Json.Member("content", Json.Str(token))])) == TokenUpdate(token)
  {
  }

  lemma CitationsParsed(sources: seq<Chat.Citation>)
    ensures ParsedUpdates(Json.Obj([Json.Member("citations", Chat.CitationsJson(sources))])) == [Finish(Chat.CitationsJson(sources))]
  {
  }

  lemma ContentLine(token: string)
    ensures var e := Chat.ContentEvent(token);
      Terminated(e, Separator) && LineUpdates(e[..|e| - 2]) == TokenUpdate(token)
  {
    EventLine(Json.Obj([Json.Member("content", Json.Str(token))]));
    ContentParsed(token);
  }

  lemma CitationsLine(sources: seq<Chat.Citation>)
    ensures var e := Chat.CitationsEvent(sources);
      Terminated(e, Separator) && LineUpdates(e[..|e| - 2]) == [Finish(Chat.CitationsJson(sources))]
  {
    EventLine(Json.Obj([Json.Member("citations", Chat.CitationsJson(sources))]));
    CitationsParsed(sources);
  }

  lemma DoneLine(e: string)
    requires e == Chat.DoneEvent
    ensures Terminated(e, Separator) && LineUpdates(e[..|e| - 2]) == []
  {
  }

  function TokensUpdates(tokens: seq<string>): seq<Update>
  {
    FlatMap(tokens, TokenUpdate)
  }

  /** The updates of one event: those of its line. */
  function EventUpdates(e: string): seq<Update>
  {
    if |e| >= |Separator| then LineUpdates(e[..|e| - |Separator|]) else []
  }

  lemma LinesOfEvents(events: seq<string>)
    requires forall i :: 0 <= i < |events| ==> Terminated(events[i], Separator)
    ensures LinesUpdates(EventLines(events)) == FlatMap(events, EventUpdates)
  {
    var lines := EventLines(events);
    forall i | 0 <= i < |lines| ensures LineUpdates(lines[i]) == EventUpdates(events[i]) {
      assert lines[i] == events[i][..|events[i]| - |Separator|];
    }
    FlatMapPointwise(lines, events, LineUpdates, EventUpdates);
  }

  /** A text made of terminated events, read as one chunk, causes the
      updates of its events in order. */
  lemma ChunkOfEvents(events: seq<string>)
    requires forall i :: 0 <= i < |events| ==> Terminated(events[i], Separator)
    ensures ChunkUpdates(Concat(events)) == FlatMap(events, EventUpdates)
  {
    var lines := EventLines(events);
    SplitFramed(events);
    FlatMapAppend(lines, [""], LineUpdates);
    FlatMapOne("", LineUpdates);
    LinesOfEvents(events);
  }

  lemma {:induction false} ContentEvents(tokens: seq<string>, sources: seq<Chat.Citation>, n: nat)
    requires n <= |tokens|
    ensures FlatMap(Chat.Stream(tokens, sources)[..n], EventUpdates) == TokensUpdates(tokens[..n])
    decreases n
  {
    var events := Chat.Stream(tokens, sources);
    if n > 0 {
      ContentEvents(tokens, sources, n - 1);
      assert events[..n][..n - 1] == events[..n - 1];
      assert tokens[..n][..n - 1] == tokens[..n - 1];
      ContentLine(tokens[n - 1]);
    }
  }

  /** Every event the endpoint streams ends with a blank line. */
  lemma StreamTerminated(tokens: seq<string>, sources: seq<Chat.Citation>)
    ensures forall i :: 0 <= i < |Chat.Stream(tokens, sources)| ==> Terminated(Chat.Stream(tokens, sources)[i], Separator)
  {
    var events := Chat.Stream(tokens, sources);
    var n := |tokens|;
    forall i | 0 <= i < |events| ensures Terminated(events[i], Separator) {
      if i < n {
        ContentLine(tokens[i]);
      } else if i == n {
        CitationsLine(sources);
      } else {
        DoneLine(events[i]);
      }
    }
  }

  /** The text the endpoint streams is read back, in one chunk, as the
      tokens and then the citations. */
  lemma StreamUpdates(tokens: seq<string>, sources: seq<Chat.Citation>)
    ensures ChunkUpdates(Concat(Chat.Stream(tokens, sources))) == TokensUpdates(tokens) + [Finish(Chat.CitationsJson(sources))]
  {
    var events := Chat.Stream(tokens, sources);
    var n := |tokens|;
    StreamTerminated(tokens, sources);
    ChunkOfEvents(events);
    assert events == events[..n] + [events[n]] + [events[n + 1]];
    FlatMapAppend(events[..n] + [events[n]], [events[n + 1]], EventUpdates);
    FlatMapAppend(events[..n], [events[n]], EventUpdates);
    ContentEvents(tokens, sources, n);
    assert tokens[..n] == tokens;
    CitationsLine(sources);
    DoneLine(events[n + 1]);
    FlatMapOne(events[n], EventUpdates);
    FlatMapOne(events[n + 1], EventUpdates);
  }

  lemma TokensStep(tokens: seq<string>)
    requires tokens != []
    ensures TokensUpdates(tokens) == TokensUpdates(tokens[..|tokens| - 1]) + TokenUpdate(tokens[|tokens| - 1])
  {
  }

  lemma TokenText(token: string)
    ensures Texts(TokenUpdate(token)) == token
    ensures forall i :: 0 <= i < |TokenUpdate(token)| ==> TokenUpdate(token)[i].AddContent?
  {
    if token != [] {
      var us := [AddContent(token)];
      assert us[..0] == [];
      assert Texts(us) == Texts([]) + token;
    }
  }

  lemma {:induction false} TokensContent(tokens: seq<string>)
    ensures Texts(TokensUpdates(tokens)) == Concat(tokens)
    decreases |tokens|
  {
    if tokens != [] {
      var init := tokens[..|tokens| - 1];
      var last := tokens[|tokens| - 1];
      TokensContent(init);
      TokensStep(tokens);
      TextsAppend(TokensUpdates(init), TokenUpdate(last));
      TokenText(last);
      assert tokens == init + [last];
      ConcatAppend(init, [last]);
      assert Concat([last]) == last + Concat([]);
    }
  }

  lemma {:induction false} TokensOnlyContent(tokens: seq<string>)
    ensures forall i :: 0 <= i < |TokensUpdates(tokens)| ==> TokensUpdates(tokens)[i].AddContent?
    decreases |tokens|
  {
    if tokens != [] {
      var init := tokens[..|tokens| - 1];
      var last := tokens[|tokens| - 1];
      TokensOnlyContent(init);
      TokensStep(tokens);
      TokenText(last);
      var a: seq<Update> := TokensUpdates(init);
      var b: seq<Update> := TokenUpdate(last);
      forall i | 0 <= i < |a + b| ensures (a + b)[i].AddContent? {
        if i >= |a| {
          assert (a + b)[i] == b[i - |a|];
        }
      }
    }
  }

  lemma {:induction false} TextsAppend(a: seq<Update>, b: seq<Update>)
    ensures Texts(a + b) == Texts(a) + Texts(b)
    decreases |b|
  {
    if b == [] {
      assert a + b == a;
    } else {
      assert (a + b)[..|a + b| - 1] == a + b[..|b| - 1];
      TextsAppend(a, b[..|b| - 1]);
    }
  }

  /** Reading the whole stream of an answer in one chunk leaves the
      assistant message holding the concatenated tokens and the citations,
      no longer streaming. */
  lemma ReadAnswer(msgs: seq<Message>, text: string, metadata: Json.Value, now1: int, now2: int,
    tokens: seq<string>, sources: seq<Chat.Citation>)
    requires !SkipsAi(metadata)
    ensures var body := Body([Concat(Chat.Stream(tokens, sources))], true);
      HandleSpec(msgs, text, metadata, now1, now2, body)[|msgs| + 1]
      == Message(now2 + 1, "assistant", Concat(tokens), None, Some(Chat.CitationsJson(sources)), Some(false))
  {
    var chunk := Concat(Chat.Stream(tokens, sources));
    var body := Body([chunk], true);
    AssistantAfter(msgs, text, metadata, now1, now2, body);
    StreamUpdates(tokens, sources);
    OneChunk(chunk);
    AnswerMessage(now2 + 1, tokens, Chat.CitationsJson(sources));
  }

  /** Content updates for the tokens and then the citations leave the new
      assistant message holding both, no longer streaming. */
  lemma AnswerMessage(id: int, tokens: seq<string>, citations: Json.Value)
    ensures ApplyAll(AssistantMessage(id), TokensUpdates(tokens) + [Finish(citations)])
      == Message(id, "assistant", Concat(tokens), None, Some(citations), Some(false))
  {
    var ai := AssistantMessage(id);
    ApplyAllAppend(ai, TokensUpdates(tokens), [Finish(citations)]);
    TokensContent(tokens);
    TokensOnlyContent(tokens);
    ContentOf(ai, TokensUpdates(tokens));
    StreamingFlag(ai, TokensUpdates(tokens));
    ApplyAllId(ai, TokensUpdates(tokens));
    var m := ApplyAll(ai, TokensUpdates(tokens));
    assert m.content == Concat(tokens);
    assert [Finish(citations)][..0] == [];
    assert ApplyAll(m, [Finish(citations)]) == Apply(m, Finish(citations));
  }

  /** End to end: for a question the endpoint answers from the context
      `c`, the page shows the model's whole answer and the citations of the
      retrieved chunks. */
  lemma ChatRoundTrip(msgs: seq<Message>, text: string, metadata: Json.Value, now1: int, now2: int,
    collection: seq<VectorStore.Record>, query: (seq<VectorStore.Record>, VectorStore.Query) -> VectorStore.QueryResult,
    llm: string -> seq<string>, c: Chat.Context)
    requires !SkipsAi(metadata)
    requires !Chat.IsBlank(text) && Chat.RetrievedContext(collection, text, None, query) == Ok(c)
    ensures var answer := llm(Chat.Prompt(Chat.ContextText(c.parts), text));
      var events := Chat.Stream(answer, c.sources);
      Chat.Respond(collection, text, None, query, llm) == Ok(events)
      && HandleSpec(msgs, text, metadata, now1, now2, Body([Concat(events)], true))[|msgs| + 1]
         == Message(now2 + 1, "assistant", Concat(answer), None, Some(Chat.CitationsJson(c.sources)), Some(false))
  {
    ReadAnswer(msgs, text, metadata, now1, now2, llm(Chat.Prompt(Chat.ContextText(c.parts), text)), c.sources);
  }

  /** A body read in one chunk that ends normally causes that chunk's
      updates. */
  lemma OneChunk(chunk: string)
    ensures ResponseUpdates(Body([chunk], true)) == ChunkUpdates(chunk)
  {
    FlatMapOne(chunk, ChunkUpdates);
  }

  /** A blank question is answered with the end marker alone, which leaves
      the assistant message empty and streaming. */
  lemma BlankQuestion(msgs: seq<Message>, text: string, now1: int, now2: int)
    ensures var body := Body([Concat([Chat.DoneEvent])], true);
      HandleSpec(msgs, text, Json.Null, now1, now2, body)[|msgs| + 1] == AssistantMessage(now2 + 1)
  {
    var e := Chat.DoneEvent;
    DoneLine(e);
    ChunkOfEvents([e]);
    FlatMapOne(e, EventUpdates);
    OneChunk(Concat([e]));
    var body := Body([Concat([e])], true);
    AssistantAfter(msgs, text, Json.Null, now1, now2, body);
    var none: seq<Update> := [];
    assert ResponseUpdates(body) == none;
  }

  // ------------------------------------------------------------------
  // Events cut across reads
  // ------------------------------------------------------------------

  /** An event whose bytes arrive in two reads, cut right after `data: `, is
      lost: the first read holds a line with nothing to parse, the second a
      line without the prefix. Read at once, the same event is acted on. */
  lemma CutEventLost(payload: Json.Value)
    requires payload.Obj? && payload.members != []
    ensures var e := Chat.Event(payload);
      ChunksUpdates([e[..|DataPrefix|], e[|DataPrefix|..]]) == []
      && ChunkUpdates(e) == ParsedUpdates(payload)
  {
    var e := Chat.Event(payload);
    var d := Json.Dumps(payload);
    assert e[..|DataPrefix|] == DataPrefix && e[|DataPrefix|..] == d + Separator;
    PrefixChunkIgnored(DataPrefix);
    Json.DumpsHasNoNewline(payload);
    UnprefixedChunkIgnored(d);
    ChunksPair(DataPrefix, d + Separator);
    EventLine(payload);
    ChunkOfEvents([e]);
    FlatMapOne(e, EventUpdates);
    assert Concat([e]) == e;
  }

  /** A read holding only `data: ` changes nothing. */
  lemma PrefixChunkIgnored(chunk: string)
    requires chunk == DataPrefix
    ensures ChunkUpdates(chunk) == []
  {
    SplitNone(chunk, Separator);
    FlatMapOne(chunk, LineUpdates);
    assert chunk[|DataPrefix|..] == "";
    assert Json.Parse("") == None;
  }

  /** A read holding one line that starts with `{` and then a blank line
      changes nothing. */
  lemma UnprefixedChunkIgnored(d: string)
    requires d != [] && d[0] == '{' && '\n' !in d
    ensures ChunkUpdates(d + Separator) == []
  {
    assert d + Separator == d + Separator + "";
    SplitAfterPiece(d, Separator, "");
    assert Split("", Separator) == [""];
    assert !IsPrefix(DataPrefix, d) by {
      assert d[0] != DataPrefix[0];
    }
    FlatMapAppend([d], [""], LineUpdates);
    FlatMapOne(d, LineUpdates);
    FlatMapOne("", LineUpdates);
  }

  lemma ChunksPair(a: string, b: string)
    ensures ChunksUpdates([a, b]) == ChunkUpdates(a) + ChunkUpdates(b)
  {
    assert [a, b] == [a] + [b];
    FlatMapAppend([a], [b], ChunkUpdates);
    FlatMapOne(a, ChunkUpdates);
    FlatMapOne(b, ChunkUpdates);
  }

  /** A token streamed by the endpoint and delivered in two reads never
      reaches the assistant message. */
  lemma CutTokenLost(token: string)
    requires token != []
    ensures var e := Chat.ContentEvent(token);
      ResponseUpdates(Body([e[..|DataPrefix|], e[|DataPrefix|..]], true)) == []
      && ResponseUpdates(Body([e], true)) == [AddContent(token)]
  {
    var payload := Json.Obj([Json.Member("content", Json.Str(token))]);
    CutEventLost(payload);
    ContentParsed(token);
    OneChunk(Chat.ContentEvent(token));
  }

  /** The reader that keeps the unfinished last piece of each read and puts
      it in front of the next one; at the end the leftover is handled as a
      line. */
  function BufferedUpdates(buffer: string, chunks: seq<string>): seq<Update>
    decreases |chunks|
  {
    if chunks == [] then LineUpdates(buffer)
    else
      var lines := Split(buffer + chunks[0], Separator);
      LinesUpdates(lines[..|lines| - 1]) + BufferedUpdates(lines[|lines| - 1], chunks[1..])
  }

  /** With a leftover that holds no blank line, the buffered reader acts as
      if the leftover and all the reads had come at once. */
  lemma {:induction false} BufferedSplit(buffer: string, chunks: seq<string>)
    requires Find(buffer, Separator).None?
    ensures BufferedUpdates(buffer, chunks) == LinesUpdates(Split(buffer + Concat(chunks), Separator))
    decreases |chunks|
  {
    if chunks == [] {
      assert buffer + Concat(chunks) == buffer;
      FlatMapOne(buffer, LineUpdates);
    } else {
      var t := buffer + chunks[0];
      var rest := Concat(chunks[1..]);
      var lines := Split(t, Separator);
      assert buffer + Concat(chunks) == t + rest;
      SplitAppend(t, rest, Separator);
      SplitLastNone(t, Separator);
      BufferedSplit(lines[|lines| - 1], chunks[1..]);
      FlatMapAppend(lines[..|lines| - 1], Split(lines[|lines| - 1] + rest, Separator), LineUpdates);
    }
  }

  /** The buffered reader does not depend on how the body is cut into
      reads: it acts as if the whole body were one read. */
  lemma BufferedWhole(chunks: seq<string>)
    ensures BufferedUpdates("", chunks) == ChunkUpdates(Concat(chunks))
  {
    BufferedSplit("", chunks);
    assert "" + Concat(chunks) == Concat(chunks);
  }

  /** However the endpoint's stream is cut into reads, the buffered reader
      recovers the tokens and then the citations. */
  lemma BufferedStream(tokens: seq<string>, sources: seq<Chat.Citation>, chunks: seq<string>)
    requires Concat(chunks) == Concat(Chat.Stream(tokens, sources))
    ensures BufferedUpdates("", chunks) == TokensUpdates(tokens) + [Finish(Chat.CitationsJson(sources))]
  {
    BufferedWhole(chunks);
    StreamUpdates(tokens, sources);
  }
}
