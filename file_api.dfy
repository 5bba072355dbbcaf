/**
 * The upload endpoint: validation of the file name's extension and of the
 * size, the stored file name, and the order in which the file is written
 * and its processing scheduled. The file system and the background task
 * list are classes whose contents the endpoint changes.
 */
module FileApi {
  import opened Wrappers
  import opened Strings
  import Pipeline

  const AllowedExtensions: set<string> := {".txt", ".pdf", ".docx", ".png", ".jpg", ".jpeg"}

  const MaxFileSize: nat := 50 * 1024 * 1024

  const UploadDir := "uploaded_files"

  /** An `HTTPException` with its status code and detail text. */
  datatype HttpError = HttpError(status: nat, detail: string)

  /** Some character other than `.` occurs before position `d`. */
  predicate NonDotBefore(name: string, d: nat)
    requires d <= |name|
  {
    exists k :: 0 <= k < d && name[k] != '.'
  }

  /** The extension of one path component: the text from its last `.`,
      unless only dots precede that dot. */
  function ComponentExt(name: string): (r: string)
    ensures r == [] || (r[0] == '.' && '.' !in r[1..])
    ensures IsSuffix(r, name)
  {
    var ext := AfterLast(name, '.');
    if |ext| < |name| && NonDotBefore(name, |name| - |ext| - 1) then
      var d := |name| - |ext| - 1;
      assert name[d] == '.';
      assert name[d + 1..] == ext;
      "." + ext
    else []
  }

  /** `os.path.splitext(p)[1]`: the extension of the final path component. */
  function SplitExt(p: string): (r: string)
    ensures r == [] || (r[0] == '.' && '.' !in r[1..] && '/' !in r)
    ensures IsSuffix(r, p)
  {
    var name := AfterLast(p, '/');
    var r := ComponentExt(name);
    SuffixTrans(p, name, r);
    SuffixExcludes(r, name, '/');
    r
  }

  /** `validate_file`: the extension is checked first, the size second.
      `None` means the file is accepted. */
  function ValidateFile(filename: string, size: nat): (r: Option<HttpError>)
    ensures r.None? <==> Lower(SplitExt(filename)) in AllowedExtensions && size <= MaxFileSize
    ensures r.Some? ==> r.value.status == 400
  {
    var ext := Lower(SplitExt(filename));
    if ext !in AllowedExtensions then
      Some(HttpError(400, "Invalid file type: " + ext + ". Allowed: PDF, TXT, DOCX, MD, CSV"))
    else if size > MaxFileSize then
      Some(HttpError(400, "File too large. Max 50MB"))
    else None
  }

  /** A disallowed extension is reported as such whatever the size. */
  lemma ExtensionCheckedFirst(filename: string, size: nat)
    requires Lower(SplitExt(filename)) !in AllowedExtensions
    ensures ValidateFile(filename, size) ==
      Some(HttpError(400, "Invalid file type: " + Lower(SplitExt(filename)) + ". Allowed: PDF, TXT, DOCX, MD, CSV"))
  {
  }

  /** An allowed file is refused for its size exactly when it is larger than
      50 MiB; a file of exactly 50 MiB is accepted. */
  lemma SizeLimit(filename: string, size: nat)
    requires Lower(SplitExt(filename)) in AllowedExtensions
    ensures ValidateFile(filename, size) == if size > MaxFileSize then Some(HttpError(400, "File too large. Max 50MB")) else None
    ensures ValidateFile(filename, MaxFileSize) == None
  {
  }

  /** Appending keeps out a character both parts lack. */
  lemma AppendExcludes(a: string, b: string, c: char)
    requires c !in a && c !in b
    ensures c !in a + b
  {
    var p := a + b;
    forall k | 0 <= k < |p| ensures p[k] != c {
      if k < |a| {
        assert p[k] == a[k];
      } else {
        assert p[k] == b[k - |a|];
      }
    }
  }

  /** A dot followed by text without dots or slashes. */
  predicate IsPlainExt(e: string)
  {
    e != [] && e[0] == '.' && '.' !in e[1..] && '/' !in e
  }

  /** The component extension of a plain file name. */
  lemma ComponentExtOfName(stem: string, e: string)
    requires stem != [] && stem[0] != '.' && IsPlainExt(e)
    ensures ComponentExt(stem + e) == e
  {
    var ext := e[1..];
    var p := (stem + ".") + ext;
    assert p == stem + e by {
      assert e == "." + ext;
    }
    AfterLastAppendMiss(stem + ".", ext, '.');
    assert AfterLast(stem + ".", '.') == [];
    assert AfterLast(p, '.') == ext;
    assert p[0] == stem[0];
    assert NonDotBefore(p, |stem|);
  }

  /** The extension of a plain file name: the text from its last dot. */
  lemma SplitExtOfName(stem: string, e: string)
    requires stem != [] && stem[0] != '.' && '/' !in stem && IsPlainExt(e)
    ensures SplitExt(stem + e) == e
  {
    AppendExcludes(stem, e, '/');
    AfterLastNone(stem + e, '/');
    ComponentExtOfName(stem, e);
  }

  lemma UpperPdf(e: string)
    requires e == ".PDF"
    ensures IsPlainExt(e) && Lower(e) == ".pdf" && Lower(e) in AllowedExtensions
  {
  }

  lemma MarkdownOrCsv(e: string)
    requires e == ".md" || e == ".csv"
    ensures IsPlainExt(e) && Lower(e) !in AllowedExtensions
  {
  }

  /** The comparison ignores case: `NAME.PDF` is accepted. */
  lemma UpperCaseAccepted(stem: string, size: nat)
    requires stem != [] && stem[0] != '.' && '/' !in stem
    requires size <= MaxFileSize
    ensures ValidateFile(stem + ".PDF", size) == None
  {
    UpperPdf(".PDF");
    SplitExtOfName(stem, ".PDF");
  }

  /** The error text names Markdown and CSV, but neither is accepted. */
  lemma MarkdownAndCsvRejected(stem: string, size: nat)
    requires stem != [] && stem[0] != '.' && '/' !in stem
    ensures ValidateFile(stem + ".md", size).Some?
    ensures ValidateFile(stem + ".csv", size).Some?
  {
    MarkdownOrCsv(".md");
    SplitExtOfName(stem, ".md");
    MarkdownOrCsv(".csv");
    SplitExtOfName(stem, ".csv");
  }

  /** `f"{email.split('@')[0]}_{filename}"`. */
  function SafeFilename(email: string, filename: string): (r: string)
    ensures r == BeforeFirst(email, '@') + "_" + filename
    ensures '@' !in r[..|BeforeFirst(email, '@')|]
  {
    var prefix := BeforeFirst(email, '@');
    assert (prefix + "_" + filename)[..|prefix|] == prefix;
    prefix + "_" + filename
  }

  /** `os.path.join(UploadDir, name)`: an absolute `name` replaces the
      directory. */
  function JoinPath(name: string): (r: string)
    ensures name != [] && name[0] == '/' ==> r == name
    ensures !(name != [] && name[0] == '/') ==> r == UploadDir + "/" + name
  {
    if name != [] && name[0] == '/' then name else UploadDir + "/" + name
  }

  /** The scheduled call `process_uploaded_file(file_path, filename, email)`. */
  datatype Task = Task(filePath: string, filename: string, email: string)

  /** The JSON body of a successful upload. */
  datatype UploadResponse = UploadResponse(message: string, filename: string, sizeKb: nat, status: string)

  /** How a write to disk ends: the file could not be opened, the copy
      broke off after `written` bytes (the truncated file stays behind), or
      every byte was copied. */
  datatype WriteOutcome = OpenFailed | CopyFailed(written: nat) | Copied

  /** The server's file system: sizes of the files written, by path. */
  class Disk {
    var files: map<string, nat>

    constructor ()
      ensures files == map[]
    {
      files := map[];
    }

    /** Opens `path` for writing, which truncates it, and copies `size`
        bytes into it; `outcome` says how far this got. */
    method Write(path: string, size: nat, outcome: WriteOutcome)
      requires outcome.CopyFailed? ==> outcome.written <= size
      modifies this
      ensures outcome.OpenFailed? ==> files == old(files)
      ensures outcome.CopyFailed? ==> files == old(files)[path := outcome.written]
      ensures outcome.Copied? ==> files == old(files)[path := size]
    {
      match outcome
      case OpenFailed =>
      case CopyFailed(written) =>
        files := files[path := written];
      case Copied =>
        files := files[path := size];
    }
  }

  /** The background tasks queued for after the response. */
  class TaskQueue {
    var tasks: seq<Task>

    constructor ()
      ensures tasks == []
    {
      tasks := [];
    }

    method AddTask(t: Task)
      modifies this
      ensures tasks == old(tasks) + [t]
    {
      tasks := tasks + [t];
    }
  }

  /** `upload_file`: validate, derive the stored name, write the file,
      schedule its processing, answer. `outcome` is how the write ended; a
      failure to open or to copy is answered with status 500, and a copy
      that broke off leaves the partial file on disk. */
  method UploadFile(disk: Disk, queue: TaskQueue, email: string, filename: string, size: nat, outcome: WriteOutcome)
    returns (r: Result<UploadResponse, HttpError>)
    requires outcome.CopyFailed? ==> outcome.written <= size
    modifies disk, queue
    ensures ValidateFile(filename, size).Some? ==>
      r == Err(ValidateFile(filename, size).value) && disk.files == old(disk.files) && queue.tasks == old(queue.tasks)
    ensures ValidateFile(filename, size).None? && outcome.OpenFailed? ==>
      r == Err(HttpError(500, "Upload failed")) && disk.files == old(disk.files) && queue.tasks == old(queue.tasks)
    ensures ValidateFile(filename, size).None? && outcome.CopyFailed? ==>
      r == Err(HttpError(500, "Upload failed"))
      && disk.files == old(disk.files)[JoinPath(SafeFilename(email, filename)) := outcome.written]
      && queue.tasks == old(queue.tasks)
    ensures ValidateFile(filename, size).None? && outcome.Copied? ==>
      var safe := SafeFilename(email, filename);
      var path := JoinPath(safe);
      disk.files == old(disk.files)[path := size]
      && queue.tasks == old(queue.tasks) + [Task(path, filename, email)]
      && r == Ok(UploadResponse("File uploaded & processing started", safe, size / 1024, "processing"))
  {
    var invalid := ValidateFile(filename, size);
    if invalid.Some? {
      return Err(invalid.value);
    }
    var safe := SafeFilename(email, filename);
    var path := JoinPath(safe);
    disk.Write(path, size, outcome);
    if !outcome.Copied? {
      return Err(HttpError(500, "Upload failed"));
    }
    queue.AddTask(Task(path, filename, email));
    r := Ok(UploadResponse("File uploaded & processing started", safe, disk.files[path] / 1024, "processing"));
  }

  // ------------------------------------------------------------------
  // Upload validation against the pipeline's loader choice
  // ------------------------------------------------------------------

  /** The stored path is already in the form pathlib prints, so the job
      reads it unchanged, and its final component is the stored name. */
  lemma StoredComponent(email: string, filename: string)
    requires '/' !in filename && '/' !in BeforeFirst(email, '@')
    ensures var p := JoinPath(SafeFilename(email, filename));
      Pipeline.NormPath(p) == p && Pipeline.PathName(p) == SafeFilename(email, filename)
  {
    var safe := SafeFilename(email, filename);
    SafeFilenamePlain(email, filename);
    assert JoinPath(safe) == UploadDir + "/" + safe;
    Pipeline.PlainPath(UploadDir, safe);
  }

  /** The stored name is one plain path component. */
  lemma SafeFilenamePlain(email: string, filename: string)
    requires '/' !in filename && '/' !in BeforeFirst(email, '@')
    ensures Pipeline.CleanPart(SafeFilename(email, filename))
    ensures SafeFilename(email, filename)[0] != '/'
  {
    var prefix := BeforeFirst(email, '@');
    var safe := SafeFilename(email, filename);
    assert '/' !in safe by {
      assert forall x :: x in safe ==> x in prefix || x == '_' || x in filename;
    }
    assert safe[0] in safe;
    assert safe != "." by {
      assert safe[|prefix|] == '_';
    }
  }

  /** Prefixing the owner's name does not change the file name's
      extension. */
  lemma StoredNameSuffix(prefix: string, filename: string)
    requires '/' !in filename
    requires |SplitExt(filename)| >= 2
    ensures Pipeline.NameSuffix(prefix + "_" + filename) == SplitExt(filename)
  {
    AfterLastNone(filename, '/');
    var ext := AfterLast(filename, '.');
    assert |ext| < |filename|;
    assert filename[|filename| - |ext| - 1] in filename;
    AfterLastAppendHit(prefix + "_", filename, '.');
    assert prefix + "_" + filename == (prefix + "_") + filename;
  }

  /** For a stored upload, the pipeline sees the extension that validation
      saw. */
  lemma StoredSuffix(email: string, filename: string)
    requires '/' !in filename && '/' !in BeforeFirst(email, '@')
    requires |SplitExt(filename)| >= 2
    ensures Pipeline.PathSuffix(JoinPath(SafeFilename(email, filename))) == SplitExt(filename)
  {
    StoredComponent(email, filename);
    StoredNameSuffix(BeforeFirst(email, '@'), filename);
  }

  /** Images pass validation but no loader reads them, so an uploaded
      image is stored on disk and never ingested; the other accepted types
      are. Markdown, which the pipeline could load, never passes
      validation. */
  lemma AcceptedUploadIngestion(email: string, filename: string, size: nat)
    requires '/' !in filename && '/' !in BeforeFirst(email, '@')
    requires ValidateFile(filename, size).None?
    ensures var suffix := Pipeline.PathSuffix(JoinPath(SafeFilename(email, filename)));
      Pipeline.LoaderFor(suffix).None? <==> Lower(SplitExt(filename)) in {".png", ".jpg", ".jpeg"}
    ensures Lower(SplitExt(filename)) != ".md"
  {
    var e := SplitExt(filename);
    AllowedLoaders(Lower(e));
    StoredSuffix(email, filename);
    Pipeline.LoaderForCases(e);
  }

  /** Which allowed extensions have a loader. */
  lemma AllowedLoaders(e: string)
    requires e in AllowedExtensions
    ensures |e| >= 4 && e != ".md"
    ensures e !in {".pdf", ".docx", ".doc", ".txt", ".md"} <==> e in {".png", ".jpg", ".jpeg"}
  {
  }
}
