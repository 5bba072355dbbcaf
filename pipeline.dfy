/**
 * Ingestion bookkeeping of the RAG pipeline: the per-user collection name,
 * get-or-create over the store, the choice of loader from the file suffix,
 * and the records and the database row that one uploaded file produces.
 * Text extraction, chunk splitting and embedding are foreign: their outputs
 * (the loaded sections, the chunks, whether embedding succeeded) are inputs.
 */
module Pipeline {
  import opened Wrappers
  import opened Strings
  import opened VectorStore

  // ------------------------------------------------------------------
  // Collection name
  // ------------------------------------------------------------------

  /** `f"docs_{email.replace('@', '_').replace('.', '_')}"`. */
  function CollectionName(email: string): (r: string)
    ensures |r| == 5 + |email|
    ensures r[..5] == "docs_"
    ensures forall i :: 0 <= i < |email| ==>
      r[5 + i] == (if email[i] == '@' || email[i] == '.' then '_' else email[i])
  {
    "docs_" + ReplaceChar(ReplaceChar(email, '@', '_'), '.', '_')
  }

  /** The derived name never holds an `@` or a `.`. */
  lemma CollectionNameClean(email: string)
    ensures '@' !in CollectionName(email) && '.' !in CollectionName(email)
  {
    var r := CollectionName(email);
    forall i | 0 <= i < |r| ensures r[i] != '@' && r[i] != '.' {
      if i >= 5 {
        assert r[5 + (i - 5)] == r[i];
      } else {
        assert r[i] == "docs_"[i];
      }
    }
  }

  /** A name is the derived one when it agrees with it position by position. */
  lemma CollectionNameIs(email: string, want: string)
    requires |want| == 5 + |email| && want[..5] == "docs_"
    requires forall i :: 0 <= i < |email| ==>
      want[5 + i] == (if email[i] == '@' || email[i] == '.' then '_' else email[i])
    ensures CollectionName(email) == want
  {
    var r := CollectionName(email);
    forall i | 0 <= i < |r| ensures r[i] == want[i] {
      if i < 5 {
        assert r[..5][i] == r[i] && want[..5][i] == want[i];
      } else {
        assert r[5 + (i - 5)] == r[i] && want[5 + (i - 5)] == want[i];
      }
    }
  }

  /** The example of the docstring. */
  lemma CollectionNameExample()
    ensures CollectionName("k@gmail.com") == "docs_k_gmail_com"
  {
    CollectionNameIs("k@gmail.com", "docs_k_gmail_com");
  }

  /** The replacement is not injective: two different addresses share one
      collection when they differ only by `.`, `@` and `_`. */
  lemma CollectionNameCollision(a: string, b: string)
    requires a == "a.b@x.com" && b == "a_b@x.com"
    ensures a != b && CollectionName(a) == CollectionName(b)
  {
    assert a[1] != b[1];
    CollectionNameIs(a, "docs_a_b_x_com");
    CollectionNameIs(b, "docs_a_b_x_com");
  }

  /** `get_or_create_collection(user_email)` on the persistent client. */
  method GetOrCreateCollection(store: Store, email: string) returns (name: string)
    modifies store
    ensures name == CollectionName(email)
    ensures store.collections == GetOrCreate(old(store.collections), name)
  {
    name := CollectionName(email);
    store.GetOrCreateCollection(name);
  }

  // ------------------------------------------------------------------
  // Loader dispatch
  // ------------------------------------------------------------------

  /** The text of a file name from its last `.`, provided that dot is
      neither the first nor the last character (pathlib's rule). */
  function NameSuffix(name: string): (r: string)
    ensures r == [] || (r[0] == '.' && '.' !in r[1..] && |r| >= 2)
    ensures IsSuffix(r, name)
  {
    var ext := AfterLast(name, '.');
    if |ext| + 1 < |name| && ext != [] then
      var i := |name| - |ext| - 1;
      assert name[i] == '.';
      assert name[i + 1..] == ext;
      "." + ext
    else []
  }

  // ------------------------------------------------------------------
  // Paths as pathlib reads them
  // ------------------------------------------------------------------

  /** The pieces `PurePosixPath` keeps: those that are neither empty nor `.`. */
  function KeptParts(pieces: seq<string>): (r: seq<string>)
    ensures |r| <= |pieces|
  {
    if pieces == [] then []
    else (if pieces[0] == "" || pieces[0] == "." then [] else [pieces[0]]) + KeptParts(pieces[1..])
  }

  /** The components of `Path(path)`: the `/`-separated pieces of the text,
      with empty and `.` pieces dropped. */
  function PathParts(path: string): seq<string>
  {
    KeptParts(Split(path, "/"))
  }

  /** The anchor of `Path(path)`: POSIX keeps exactly two leading slashes,
      and folds one, or three or more, into one. */
  function PathRoot(path: string): (r: string)
    ensures r in {"", "/", "//"}
  {
    if |path| >= 2 && path[..2] == "//" && (|path| == 2 || path[2] != '/') then "//"
    else if path != [] && path[0] == '/' then "/"
    else ""
  }

  /** `str(Path(path))`: the anchor followed by the kept components joined
      by `/`, or `.` when both are empty. */
  function NormPath(path: string): string
  {
    var parts := PathParts(path);
    var root := PathRoot(path);
    if root == [] && parts == [] then "." else root + Join(parts, "/")
  }

  /** `Path(path).name`: the last kept component, or empty. */
  function PathName(path: string): string
  {
    var parts := PathParts(path);
    if parts == [] then "" else parts[|parts| - 1]
  }

  /** Every kept piece comes from the input and is neither empty nor `.`. */
  lemma {:induction false} KeptPartsClean(pieces: seq<string>)
    ensures forall i :: 0 <= i < |KeptParts(pieces)| ==>
      KeptParts(pieces)[i] in pieces && KeptParts(pieces)[i] != "" && KeptParts(pieces)[i] != "."
  {
    if pieces != [] {
      KeptPartsClean(pieces[1..]);
    }
  }

  /** Pieces that are neither empty nor `.` are all kept. */
  lemma {:induction false} KeptPartsAll(pieces: seq<string>)
    requires forall i :: 0 <= i < |pieces| ==> pieces[i] != "" && pieces[i] != "."
    ensures KeptParts(pieces) == pieces
  {
    if pieces != [] {
      KeptPartsAll(pieces[1..]);
      assert pieces == [pieces[0]] + pieces[1..];
    }
  }

  /** The kept components hold no `/` and are neither empty nor `.`. */
  lemma PathPartsClean(path: string)
    ensures forall i :: 0 <= i < |PathParts(path)| ==>
      '/' !in PathParts(path)[i] && PathParts(path)[i] != "" && PathParts(path)[i] != "."
  {
    var pieces := Split(path, "/");
    KeptPartsClean(pieces);
    forall i | 0 <= i < |PathParts(path)| ensures '/' !in PathParts(path)[i] {
      var k :| 0 <= k < |pieces| && pieces[k] == PathParts(path)[i];
      SplitPiecesFree(path, '/', k);
    }
  }

  /** A bare anchor, or `.`, has no components and reads back as itself. */
  lemma AnchorOnly(n: string)
    requires n == "." || n == "/" || n == "//"
    ensures PathParts(n) == []
    ensures PathRoot(n) == if n == "." then "" else n
  {
    if n == "." {
      DotOnly(n);
    } else if n == "/" {
      SlashOnly(n);
    } else {
      DoubleSlashOnly(n);
    }
  }

  lemma DotOnly(n: string)
    requires n == "."
    ensures PathParts(n) == [] && PathRoot(n) == ""
  {
    SplitNone(n, "/");
    KeptPartsNone([n]);
  }

  lemma SlashOnly(n: string)
    requires n == "/"
    ensures PathParts(n) == [] && PathRoot(n) == n
  {
    SplitNone("", "/");
    SplitAfterPiece("", "/", "");
    assert n == "" + "/" + "";
    KeptPartsNone([""]);
    KeptPartsSkip([""]);
  }

  lemma DoubleSlashOnly(n: string)
    requires n == "//"
    ensures PathParts(n) == [] && PathRoot(n) == n
  {
    SplitNone("", "/");
    SplitAfterPiece("", "/", "");
    SplitAfterPiece("", "/", "/");
    assert n == "" + "/" + "/";
    KeptPartsNone([""]);
    KeptPartsSkip([""]);
    KeptPartsSkip([""] + [""]);
    assert |n| == 2 && n[..2] == n;
  }

  /** Only empty and `.` pieces: nothing is kept. */
  lemma {:induction false} KeptPartsNone(pieces: seq<string>)
    requires forall i :: 0 <= i < |pieces| ==> pieces[i] == "" || pieces[i] == "."
    ensures KeptParts(pieces) == []
  {
    if pieces != [] {
      KeptPartsNone(pieces[1..]);
    }
  }

  /** An anchor followed by clean components joined by `/` reads back as
      that anchor and those components. */
  lemma AnchoredJoin(root: string, parts: seq<string>)
    requires root == "" || root == "/" || root == "//"
    requires parts != []
    requires forall i :: 0 <= i < |parts| ==> '/' !in parts[i] && parts[i] != "" && parts[i] != "."
    ensures PathParts(root + Join(parts, "/")) == parts
    ensures PathRoot(root + Join(parts, "/")) == root
  {
    var j := Join(parts, "/");
    var n := root + j;
    SplitJoin(parts, '/');
    KeptPartsAll(parts);
    JoinHead(parts, "/");
    assert j[0] == parts[0][0] && j[0] != '/';
    AnchorPieces(root, j);
    if root == "" {
      assert Split(n, "/") == parts;
    } else if root == "/" {
      assert Split(n, "/") == [""] + parts;
      KeptPartsSkip(parts);
    } else {
      assert Split(n, "/") == [""] + ([""] + parts);
      KeptPartsSkip([""] + parts);
      KeptPartsSkip(parts);
    }
    AnchorRoot(root, j);
  }

  /** The anchor of an anchor followed by text that does not start with `/`. */
  lemma AnchorRoot(root: string, j: string)
    requires root == "" || root == "/" || root == "//"
    requires j != [] && j[0] != '/'
    ensures PathRoot(root + j) == root
  {
    var n := root + j;
    if root == "" {
      assert n[0] == j[0];
    } else if root == "/" {
      assert n[0] == '/' && n[1] == j[0];
      assert n[..2] != "//" by {
        assert n[..2][1] == j[0];
      }
    } else {
      assert n[..2] == "//" && n[2] == j[0];
    }
  }

  /** Each leading `/` of an anchor splits off one empty piece. */
  lemma AnchorPieces(root: string, j: string)
    requires root == "" || root == "/" || root == "//"
    ensures root == "" ==> Split(root + j, "/") == Split(j, "/")
    ensures root == "/" ==> Split(root + j, "/") == [""] + Split(j, "/")
    ensures root == "//" ==> Split(root + j, "/") == [""] + ([""] + Split(j, "/"))
  {
    if root == "/" {
      SplitAfterPiece("", "/", j);
      assert root + j == "" + "/" + j;
    } else if root == "//" {
      SplitAfterPiece("", "/", j);
      SplitAfterPiece("", "/", "/" + j);
      assert root + j == "" + "/" + ("" + "/" + j);
    } else {
      assert root + j == j;
    }
  }

  /** A leading empty piece is dropped. */
  lemma KeptPartsSkip(rest: seq<string>)
    ensures KeptParts([""] + rest) == KeptParts(rest)
  {
    assert ([""] + rest)[1..] == rest;
  }

  /** Reading a normalised path again gives the same anchor and the same
      components. */
  lemma NormPathReads(path: string)
    ensures PathParts(NormPath(path)) == PathParts(path)
    ensures PathRoot(NormPath(path)) == PathRoot(path)
  {
    var parts := PathParts(path);
    var root := PathRoot(path);
    var n := NormPath(path);
    PathPartsClean(path);
    if parts == [] {
      if root == [] {
        assert n == ".";
        AnchorOnly(".");
      } else {
        assert n == root + "" == root;
        AnchorOnly(root);
      }
    } else {
      assert n == root + Join(parts, "/");
      AnchoredJoin(root, parts);
    }
  }

  /** Normalising is idempotent, and the name and the suffix are those of
      the path as given. */
  lemma NormPathStable(path: string)
    ensures NormPath(NormPath(path)) == NormPath(path)
    ensures PathName(NormPath(path)) == PathName(path)
    ensures PathSuffix(NormPath(path)) == PathSuffix(path)
  {
    NormPathReads(path);
  }

  /** The name holds no `/`. */
  lemma PathNameClean(path: string)
    ensures '/' !in PathName(path)
  {
    PathPartsClean(path);
  }

  /** `Path(path).suffix`: the suffix of the final component. */
  function PathSuffix(path: string): (r: string)
    ensures r == [] || (r[0] == '.' && '.' !in r[1..] && '/' !in r && |r| >= 2)
    ensures IsSuffix(r, PathName(path))
  {
    var name := PathName(path);
    var r := NameSuffix(name);
    PathNameClean(path);
    SuffixExcludes(r, name, '/');
    r
  }

  /** A component `pathlib` keeps as it is. */
  predicate CleanPart(p: string)
  {
    p != "" && p != "." && '/' !in p
  }

  /** A kept piece stays in front. */
  lemma KeptPartsKeep(p: string, rest: seq<string>)
    requires CleanPart(p)
    ensures KeptParts([p] + rest) == [p] + KeptParts(rest)
  {
    assert ([p] + rest)[1..] == rest;
  }

  /** pathlib collapses a repeated separator between two components. */
  lemma RepeatedSeparatorCollapsed(d: string, x: string)
    requires CleanPart(d) && CleanPart(x)
    ensures NormPath(d + "//" + x) == d + "/" + x
  {
    var n := d + "//" + x;
    RepeatedSeparatorParts(d, x);
    assert d[0] != '/' by {
      assert d[0] in d;
    }
    AnchorRoot("", n);
    assert "" + n == n;
    assert Join([d, x], "/") == d + "/" + x;
  }

  lemma RepeatedSeparatorParts(d: string, x: string)
    requires CleanPart(d) && CleanPart(x)
    ensures PathParts(d + "//" + x) == [d, x]
  {
    var n := d + "//" + x;
    assert n == d + "/" + ("" + "/" + x);
    SplitNone(x, "/");
    SplitAfterPiece("", "/", x);
    SplitAfterPiece(d, "/", "/" + x);
    assert Split(n, "/") == [d] + ([""] + [x]);
    KeptPartsKeep(x, []);
    KeptPartsSkip([x]);
    KeptPartsKeep(d, [""] + [x]);
  }

  /** A directory and a name, both plain components, joined by one `/`
      are already in the form pathlib prints, and the name is the last
      component. */
  lemma PlainPath(dir: string, name: string)
    requires CleanPart(dir) && CleanPart(name)
    ensures NormPath(dir + "/" + name) == dir + "/" + name
    ensures PathName(dir + "/" + name) == name
  {
    var n := dir + "/" + name;
    SplitNone(name, "/");
    SplitAfterPiece(dir, "/", name);
    assert Split(n, "/") == [dir] + [name];
    KeptPartsKeep(name, []);
    KeptPartsKeep(dir, [name]);
    assert PathParts(n) == [dir, name];
    assert dir[0] != '/' by {
      assert dir[0] in dir;
    }
    AnchorRoot("", n);
    assert "" + n == n;
    assert Join([dir, name], "/") == dir + "/" + name;
  }

  /** pathlib drops a trailing separator, so the name and the suffix are
      read from the component before it. */
  lemma TrailingSeparatorDropped(n: string)
    requires CleanPart(n)
    ensures NormPath(n + "/") == n
    ensures PathName(n + "/") == n && PathSuffix(n + "/") == PathSuffix(n)
  {
    SplitNone("", "/");
    SplitNone(n, "/");
    SplitAfterPiece(n, "/", "");
    assert n + "/" == n + "/" + "";
    assert Split(n + "/", "/") == [n] + [""];
    KeptPartsKeep(n, [""]);
    KeptPartsSkip([]);
    KeptPartsKeep(n, []);
    assert PathParts(n + "/") == [n] && PathParts(n) == [n];
    assert n[0] != '/' by {
      assert n[0] in n;
    }
    AnchorRoot("", n + "/");
    assert "" + (n + "/") == n + "/";
  }

  datatype Loader = PdfLoader | DocxLoader | TextLoader

  /** The loader chosen for a suffix, compared after ASCII lower-casing. */
  function LoaderFor(suffix: string): Option<Loader>
  {
    var s := Lower(suffix);
    if s == ".pdf" then Some(PdfLoader)
    else if s == ".docx" || s == ".doc" then Some(DocxLoader)
    else if s == ".txt" || s == ".md" then Some(TextLoader)
    else None
  }

  /** Every suffix is dispatched to exactly the loader its lower-cased form
      names, and to none when it names none. */
  lemma LoaderForCases(suffix: string)
    ensures LoaderFor(suffix) == Some(PdfLoader) <==> Lower(suffix) == ".pdf"
    ensures LoaderFor(suffix) == Some(DocxLoader) <==> Lower(suffix) in {".docx", ".doc"}
    ensures LoaderFor(suffix) == Some(TextLoader) <==> Lower(suffix) in {".txt", ".md"}
    ensures LoaderFor(suffix) == None <==> Lower(suffix) !in {".pdf", ".docx", ".doc", ".txt", ".md"}
  {
  }

  /** The dispatch ignores the case of the suffix. */
  lemma LoaderForCaseInsensitive(suffix: string)
    ensures LoaderFor(Lower(suffix)) == LoaderFor(suffix)
  {
    LowerIdempotent(suffix);
  }

  // ------------------------------------------------------------------
  // Records of one file
  // ------------------------------------------------------------------

  /** A LangChain document: a loaded section or a chunk of one. */
  datatype Passage = Passage(content: string, metadata: Metadata)

  /** `chunk.metadata.get("page", 0)`. */
  function PageOf(p: Passage): (r: MetaValue)
    ensures "page" in p.metadata ==> r == p.metadata["page"]
    ensures "page" !in p.metadata ==> r == MInt(0)
  {
    if "page" in p.metadata then p.metadata["page"] else MInt(0)
  }

  /** `[chunk.page_content for chunk in chunks]`. */
  function Texts(chunks: seq<Passage>): (r: seq<string>)
    ensures |r| == |chunks|
    ensures forall i :: 0 <= i < |r| ==> r[i] == chunks[i].content
  {
    if chunks == [] then [] else [chunks[0].content] + Texts(chunks[1..])
  }

  /** The metadata dictionary that the loop appends for chunk `i`. */
  function ChunkMetadata(filename: string, email: string, chunks: seq<Passage>, i: nat): Metadata
    requires i < |chunks|
  {
    map["source" := MStr(filename), "chunk_index" := MInt(i), "page" := PageOf(chunks[i]),
        "total_chunks" := MInt(|chunks|), "user_email" := MStr(email)]
  }

  /** The `for i, chunk in enumerate(chunks)` loop that builds `metadatas`. */
  method BuildMetadatas(filename: string, email: string, chunks: seq<Passage>) returns (metas: seq<Metadata>)
    ensures |metas| == |chunks|
    ensures forall i :: 0 <= i < |chunks| ==>
      metas[i].Keys == {"source", "chunk_index", "page", "total_chunks", "user_email"}
      && metas[i]["source"] == MStr(filename) && metas[i]["chunk_index"] == MInt(i)
      && metas[i]["page"] == PageOf(chunks[i]) && metas[i]["total_chunks"] == MInt(|chunks|)
      && metas[i]["user_email"] == MStr(email)
    ensures forall i :: 0 <= i < |chunks| ==> metas[i] == ChunkMetadata(filename, email, chunks, i)
  {
    metas := [];
    var i := 0;
    while i < |chunks|
      invariant 0 <= i <= |chunks|
      invariant |metas| == i
      invariant forall k :: 0 <= k < i ==> metas[k] == ChunkMetadata(filename, email, chunks, k)
    {
      metas := metas + [ChunkMetadata(filename, email, chunks, i)];
      i := i + 1;
    }
  }

  /** The records that one stored file contributes to its collection. */
  function FileRecords(ids: seq<string>, filename: string, email: string, chunks: seq<Passage>): (r: seq<Record>)
    requires |ids| == |chunks|
    ensures |r| == |chunks|
  {
    Records(ids, Texts(chunks), seq(|chunks|, i requires 0 <= i < |chunks| => ChunkMetadata(filename, email, chunks, i)))
  }

  /** The loop's lists give exactly the records of the file. */
  lemma RecordsOfLoop(ids: seq<string>, filename: string, email: string, chunks: seq<Passage>,
    texts: seq<string>, metas: seq<Metadata>)
    requires |ids| == |chunks| && texts == Texts(chunks) && |metas| == |chunks|
    requires forall i :: 0 <= i < |chunks| ==> metas[i] == ChunkMetadata(filename, email, chunks, i)
    ensures Records(ids, texts, metas) == FileRecords(ids, filename, email, chunks)
  {
    assert metas == seq(|chunks|, i requires 0 <= i < |chunks| => ChunkMetadata(filename, email, chunks, i));
  }

  /** Record `i` carries chunk `i`'s text, its id and its metadata. */
  lemma FileRecordAt(ids: seq<string>, filename: string, email: string, chunks: seq<Passage>, i: nat)
    requires |ids| == |chunks| && i < |chunks|
    ensures FileRecords(ids, filename, email, chunks)[i] ==
      Record(ids[i], chunks[i].content, ChunkMetadata(filename, email, chunks, i))
  {
  }

  /** Pipeline metadata has no `document_id` key, so a `document_id` filter
      matches none of the records the pipeline writes. */
  lemma NoDocumentIdKey(filename: string, email: string, chunks: seq<Passage>, i: nat, id: int)
    requires i < |chunks|
    ensures !Matches(ChunkMetadata(filename, email, chunks, i), Eq("document_id", MInt(id)))
  {
  }

  // ------------------------------------------------------------------
  // Database
  // ------------------------------------------------------------------

  /** The `Document` row written for a stored file. */
  datatype DocumentRow = DocumentRow(
    filename: string, filePath: string, userId: nat, pageCount: nat, chunkCount: nat)

  /** The part of the relational database the pipeline touches: users by
      email, and document rows in insertion order. */
  class Database {
    var users: map<string, nat>
    var documents: seq<DocumentRow>

    constructor (users: map<string, nat>)
      ensures this.users == users && documents == []
    {
      this.users := users;
      documents := [];
    }

    /** `db.add(row); db.commit()`, rolled back when the commit fails. */
    method AddDocument(row: DocumentRow, commitOk: bool)
      modifies this
      ensures users == old(users)
      ensures documents == if commitOk then old(documents) + [row] else old(documents)
    {
      if commitOk {
        documents := documents + [row];
      }
    }
  }

  /** How the pipeline ends. `Raised` is an exception leaving the job. */
  datatype Outcome =
    | FileMissing
    | Unsupported
    | NoText
    | Stored(db: DbOutcome)
    | Raised

  datatype DbOutcome = Saved | UserMissing | Rolled

  /** Whether the job reaches `collection.add`. */
  predicate Ingests(filePath: string, fileExists: bool, loadOk: bool, chunks: seq<Passage>)
  {
    fileExists && LoaderFor(PathSuffix(filePath)).Some? && loadOk && chunks != []
  }

  /** What the job does to the collections. */
  function StoreAfter(
    collections: map<string, seq<Record>>, filePath: string, filename: string, email: string,
    fileExists: bool, loadOk: bool, chunks: seq<Passage>, ids: seq<string>, embedOk: bool): map<string, seq<Record>>
    requires |ids| == |chunks|
  {
    if !Ingests(filePath, fileExists, loadOk, chunks) then collections
    else
      var name := CollectionName(email);
      var c := GetOrCreate(collections, name);
      if embedOk then c[name := c[name] + FileRecords(ids, filename, email, chunks)] else c
  }

  /** The document rows after the job; the row keeps the path in the form
      pathlib prints it. */
  function RowsAfter(
    rows: seq<DocumentRow>, users: map<string, nat>, filePath: string, filename: string, email: string,
    fileExists: bool, loadOk: bool, pages: seq<Passage>, chunks: seq<Passage>, embedOk: bool, commitOk: bool): seq<DocumentRow>
  {
    if Ingests(filePath, fileExists, loadOk, chunks) && embedOk && email in users && commitOk then
      rows + [DocumentRow(filename, NormPath(filePath), users[email], |pages|, |chunks|)]
    else rows
  }

  /** The texts, the metadata loop, the embedding and `collection.add`:
      nothing is added when embedding fails. */
  method AddChunks(
    store: Store, name: string, ids: seq<string>, filename: string, email: string,
    chunks: seq<Passage>, embedOk: bool) returns (added: bool)
    requires |ids| == |chunks| && name in store.collections
    modifies store
    ensures added == embedOk
    ensures store.collections ==
      if embedOk then old(store.collections)[name := old(store.collections)[name] + FileRecords(ids, filename, email, chunks)]
      else old(store.collections)
  {
    var texts := Texts(chunks);
    var metas := BuildMetadatas(filename, email, chunks);
    if !embedOk {
      return false;
    }
    RecordsOfLoop(ids, filename, email, chunks, texts, metas);
    store.Add(name, Records(ids, texts, metas));
    added := true;
  }

  /** `process_uploaded_file`. `loadOk` is whether `loader.load()` and the
      splitter returned (a file that is not valid UTF-8 text or a corrupt PDF
      makes them raise), `pages` is what the loader returned, `chunks` what
      the splitter made of it, `ids` the fresh identifiers, `embedOk`
      whether local embedding succeeded and `commitOk` whether the database
      commit did. */
  method ProcessUploadedFile(
    store: Store, db: Database, filePath: string, filename: string, email: string,
    fileExists: bool, loadOk: bool, pages: seq<Passage>, chunks: seq<Passage>, ids: seq<string>,
    embedOk: bool, commitOk: bool) returns (outcome: Outcome)
    requires |ids| == |chunks|
    modifies store, db
    ensures store.collections == StoreAfter(old(store.collections), filePath, filename, email, fileExists, loadOk, chunks, ids, embedOk)
    ensures db.users == old(db.users)
    ensures db.documents == RowsAfter(old(db.documents), old(db.users), filePath, filename, email, fileExists, loadOk, pages, chunks, embedOk, commitOk)
    ensures !fileExists ==> outcome == FileMissing
    ensures fileExists && LoaderFor(PathSuffix(filePath)).None? ==> outcome == Unsupported
    ensures fileExists && LoaderFor(PathSuffix(filePath)).Some? && !loadOk ==> outcome == Raised
    ensures fileExists && LoaderFor(PathSuffix(filePath)).Some? && loadOk && chunks == [] ==> outcome == NoText
    ensures Ingests(filePath, fileExists, loadOk, chunks) ==>
      outcome == if !embedOk then Raised
                 else if email !in old(db.users) then Stored(UserMissing)
                 else if commitOk then Stored(Saved) else Stored(Rolled)
  {
    var path := NormPath(filePath);
    NormPathStable(filePath);
    if !fileExists {
      NothingStoredWithoutText(store.collections, db.documents, db.users, filePath, filename, email, fileExists, loadOk, pages, chunks, ids, embedOk, commitOk);
      return FileMissing;
    }
    var loader := LoaderFor(PathSuffix(path));
    if loader.None? {
      NothingStoredWithoutText(store.collections, db.documents, db.users, filePath, filename, email, fileExists, loadOk, pages, chunks, ids, embedOk, commitOk);
      return Unsupported;
    }
    if !loadOk {
      NothingStoredWithoutText(store.collections, db.documents, db.users, filePath, filename, email, fileExists, loadOk, pages, chunks, ids, embedOk, commitOk);
      return Raised;
    }
    if |chunks| == 0 {
      NothingStoredWithoutText(store.collections, db.documents, db.users, filePath, filename, email, fileExists, loadOk, pages, chunks, ids, embedOk, commitOk);
      return NoText;
    }
    outcome := IngestChunks(store, db, path, filename, email, pages, chunks, ids, embedOk, commitOk);
  }

  /** The rest of the job, once there are chunks of a supported file: the
      collection, the records, and the document row. `filePath` is the
      `Path` the job made of its argument, already in the form pathlib
      prints, and is written to the row as `str(file_path)`. */
  method IngestChunks(
    store: Store, db: Database, filePath: string, filename: string, email: string,
    pages: seq<Passage>, chunks: seq<Passage>, ids: seq<string>,
    embedOk: bool, commitOk: bool) returns (outcome: Outcome)
    requires |ids| == |chunks| && Ingests(filePath, true, true, chunks)
    requires NormPath(filePath) == filePath
    modifies store, db
    ensures store.collections == StoreAfter(old(store.collections), filePath, filename, email, true, true, chunks, ids, embedOk)
    ensures db.users == old(db.users)
    ensures db.documents == RowsAfter(old(db.documents), old(db.users), filePath, filename, email, true, true, pages, chunks, embedOk, commitOk)
    ensures outcome == if !embedOk then Raised
                       else if email !in old(db.users) then Stored(UserMissing)
                       else if commitOk then Stored(Saved) else Stored(Rolled)
  {
    var name := GetOrCreateCollection(store, email);
    var added := AddChunks(store, name, ids, filename, email, chunks, embedOk);
    if !added {
      return Raised;
    }
    if email !in db.users {
      return Stored(UserMissing);
    }
    db.AddDocument(DocumentRow(filename, filePath, db.users[email], |pages|, |chunks|), commitOk);
    outcome := if commitOk then Stored(Saved) else Stored(Rolled);
  }

  // ------------------------------------------------------------------
  // Properties of one ingestion
  // ------------------------------------------------------------------

  /** A file that is missing, of an unsupported type, unreadable to its
      loader or splitter, or without text leaves the store and the database
      as they were. */
  lemma NothingStoredWithoutText(
    collections: map<string, seq<Record>>, rows: seq<DocumentRow>, users: map<string, nat>,
    filePath: string, filename: string, email: string, fileExists: bool, loadOk: bool,
    pages: seq<Passage>, chunks: seq<Passage>, ids: seq<string>, embedOk: bool, commitOk: bool)
    requires |ids| == |chunks|
    requires !fileExists || LoaderFor(PathSuffix(filePath)).None? || !loadOk || chunks == []
    ensures StoreAfter(collections, filePath, filename, email, fileExists, loadOk, chunks, ids, embedOk) == collections
    ensures RowsAfter(rows, users, filePath, filename, email, fileExists, loadOk, pages, chunks, embedOk, commitOk) == rows
  {
    assert !Ingests(filePath, fileExists, loadOk, chunks);
  }

  /** A stored file adds one record per chunk, after the records already in
      the user's collection, and touches no other collection. */
  lemma StoredRecords(
    collections: map<string, seq<Record>>, filePath: string, filename: string, email: string,
    chunks: seq<Passage>, ids: seq<string>)
    requires |ids| == |chunks| && Ingests(filePath, true, true, chunks)
    ensures var after := StoreAfter(collections, filePath, filename, email, true, true, chunks, ids, true);
      var name := CollectionName(email);
      var before := if name in collections then collections[name] else [];
      name in after && after[name] == before + FileRecords(ids, filename, email, chunks)
      && |after[name]| == |before| + |chunks|
      && (forall n :: n in collections && n != name ==> n in after && after[n] == collections[n])
      && after.Keys == collections.Keys + {name}
  {
  }

  /** A document row is only ever written once the chunks are in the store,
      and it records the number of sections and of chunks. */
  lemma RowOnlyAfterAdd(
    collections: map<string, seq<Record>>, rows: seq<DocumentRow>, users: map<string, nat>,
    filePath: string, filename: string, email: string, fileExists: bool, loadOk: bool,
    pages: seq<Passage>, chunks: seq<Passage>, ids: seq<string>, embedOk: bool, commitOk: bool)
    requires |ids| == |chunks|
    requires RowsAfter(rows, users, filePath, filename, email, fileExists, loadOk, pages, chunks, embedOk, commitOk) != rows
    ensures var after := StoreAfter(collections, filePath, filename, email, fileExists, loadOk, chunks, ids, embedOk);
      var name := CollectionName(email);
      name in after && |after[name]| >= |chunks| > 0
      && after[name][|after[name]| - |chunks|..] == FileRecords(ids, filename, email, chunks)
    ensures RowsAfter(rows, users, filePath, filename, email, fileExists, loadOk, pages, chunks, embedOk, commitOk)
      == rows + [DocumentRow(filename, NormPath(filePath), users[email], |pages|, |chunks|)]
  {
    var name := CollectionName(email);
    var c := GetOrCreate(collections, name);
    var recs := FileRecords(ids, filename, email, chunks);
    assert (c[name] + recs)[|c[name] + recs| - |chunks|..] == recs;
  }

  /** A failed commit after a successful add leaves the records in the store
      without a document row. */
  lemma RecordsWithoutRow(
    collections: map<string, seq<Record>>, rows: seq<DocumentRow>, users: map<string, nat>,
    filePath: string, filename: string, email: string,
    pages: seq<Passage>, chunks: seq<Passage>, ids: seq<string>)
    requires |ids| == |chunks| && Ingests(filePath, true, true, chunks)
    ensures RowsAfter(rows, users, filePath, filename, email, true, true, pages, chunks, true, false) == rows
    ensures StoreAfter(collections, filePath, filename, email, true, true, chunks, ids, true) != collections
  {
    var name := CollectionName(email);
    var after := StoreAfter(collections, filePath, filename, email, true, true, chunks, ids, true);
    StoredRecords(collections, filePath, filename, email, chunks, ids);
    if name in collections {
      assert |after[name]| > |collections[name]|;
    }
  }
}
