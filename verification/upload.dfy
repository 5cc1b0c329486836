/** The file-upload middleware: the MIME-type filter, the size and count
    limits, the name a stored file receives, and the translation of the
    upload library's errors into application exceptions. */
module Upload {
  import opened Errors
  import opened Text

  /** The only content types the filter lets through. */
  const AllowedMimeTypes: seq<string> := ["image/jpeg", "image/png", "application/pdf"]

  /** Per-file size limit: 5 MiB. */
  const MaxFileSize: nat := 1024 * 1024 * 5

  /** At most five files per request, all under the field "files". */
  const MaxFiles: nat := 5

  const FilesField := "files"

  /** A file as the upload library hands it to the services. */
  datatype UploadedFile = UploadedFile(
    fieldname: string,
    originalname: string,
    mimetype: string,
    size: nat,
    filename: string,
    path: string)

  /** The filter's verdict: accept, or reject with the application exception. */
  function FileFilter(mimetype: string): (r: Result<bool>)
    ensures r.Ok? ==> r.value
    ensures r.Err? ==> r.error == InvalidArgumentError("File", "Unsupported file type")
  {
    if mimetype in AllowedMimeTypes then Ok(true)
    else Err(InvalidArgumentError("File", "Unsupported file type"))
  }

  /** Exactly JPEG, PNG and PDF pass the filter; WebP in particular is
      refused, and a refusal reaches the client as a 400. */
  lemma {:induction false} FileFilterAccepts(mimetype: string)
    ensures FileFilter(mimetype).Ok? <==> mimetype == "image/jpeg" || mimetype == "image/png" || mimetype == "application/pdf"
    ensures FileFilter("image/webp").Err?
    ensures FileFilter(mimetype).Err? ==> HandleError(FileFilter(mimetype).error) == Response(400, CodeMessage("FileInvalidArgument", "Unsupported file type"))
  {
    assert "image/webp" != "image/jpeg";
    assert "image/webp" != "image/png";
    assert "image/webp" != "application/pdf";
    FileArgumentResponse("Unsupported file type");
  }

  /** The stored name: `<field>-<suffix>.<extension>`, where the extension is
      the last dot-separated piece of the client's file name (the whole name
      when it holds no dot). `suffix` stands for the clock-and-random part. */
  function StoredFilename(fieldname: string, suffix: string, originalname: string): (r: string)
    ensures StartsWith(r, fieldname + "-")
    ensures EndsWith(r, "." + LastSegment(originalname, '.'))
  {
    var ext := LastSegment(originalname, '.');
    var r := fieldname + "-" + suffix + "." + ext;
    assert r[..|fieldname + "-"|] == fieldname + "-";
    assert r[|r| - |"." + ext|..] == "." + ext;
    r
  }

  /** When neither the field name nor the suffix holds a dot (the suffix is
      two numbers joined by "-"), the extension read back from the stored
      name is the extension of the client's name. */
  lemma {:induction false} StoredExtension(fieldname: string, suffix: string, originalname: string)
    requires '.' !in fieldname && '.' !in suffix
    ensures LastSegment(StoredFilename(fieldname, suffix, originalname), '.') == LastSegment(originalname, '.')
  {
    var ext := LastSegment(originalname, '.');
    var head := fieldname + "-" + suffix;
    assert '.' !in head by {
      forall i | 0 <= i < |head| ensures head[i] != '.' {
        if i < |fieldname| { assert head[i] == fieldname[i]; }
        else if i == |fieldname| { assert head[i] == '-'; }
        else { assert head[i] == suffix[i - |fieldname| - 1]; }
      }
    }
    assert StoredFilename(fieldname, suffix, originalname) == head + ['.'] + ext;
    LastSegmentAfter(head, ext, '.');
  }

  /** The last piece of `a + [sep] + b` is `b` when `b` holds no separator. */
  lemma {:induction false} LastSegmentAfter(a: string, b: string, sep: char)
    requires sep !in b
    ensures LastSegment(a + [sep] + b, sep) == b
    decreases |a|
  {
    var s := a + [sep] + b;
    assert s[|a|] == sep;
    if |a| == 0 {
      assert s[1..] == b;
    } else {
      assert s[1..] == a[1..] + [sep] + b;
      LastSegmentAfter(a[1..], b, sep);
    }
  }

  /** What the upload handler reports to its callback. */
  datatype HandlerError =
    | NoError
      /** An error of the upload library itself, with its code. */
    | MulterError(code: string, message: string)
      /** Anything else, including the filter's own rejection. */
    | OtherError(err: Thrown)

  /** The library codes that are the client's fault. */
  const LimitCodes: set<string> := {"LIMIT_FILE_SIZE", "LIMIT_FILE_COUNT", "LIMIT_UNEXPECTED_FILE"}

  /** The promise wrapper around the handler: resolve, translate a library
      error, or pass any other error through. */
  function MapUploadError(e: HandlerError): (r: Result<()>)
    ensures r.Ok? <==> e.NoError?
    ensures e.OtherError? ==> r == Err(e.err)
    ensures e.MulterError? ==> r.Err? && r.error.App?
    ensures e.MulterError? ==> (r.error.cls == InvalidArgument <==> e.code in LimitCodes)
    ensures e.MulterError? && e.code !in LimitCodes ==> r == Err(ServerError("MulterError", e.message))
  {
    match e
    case NoError => Ok(())
    case MulterError(code, message) =>
      if code == "LIMIT_FILE_SIZE" then Err(InvalidArgumentError("File", "File too large (max 5MB)"))
      else if code == "LIMIT_FILE_COUNT" then Err(InvalidArgumentError("File", "Too many files (max 5)"))
      else if code == "LIMIT_UNEXPECTED_FILE" then Err(InvalidArgumentError("File", "Unexpected field"))
      else Err(ServerError("MulterError", message))
    case OtherError(err) => Err(err)
  }

  /** A limit violation reaches the client as a 400 with code
      "FileInvalidArgument"; any other library error as a 500 with code
      "MulterError"; a filter rejection keeps its own 400. */
  lemma {:induction false} UploadErrorStatus(code: string, message: string, mimetype: string)
    ensures var r := HandleError(MapUploadError(MulterError(code, message)).error);
      (code in LimitCodes ==> r.status == 400 && r.body.code == "FileInvalidArgument")
      && (code !in LimitCodes ==> r == Response(500, CodeMessage("MulterError", message)))
    ensures FileFilter(mimetype).Err? ==>
      HandleError(MapUploadError(OtherError(FileFilter(mimetype).error)).error).status == 400
  {
    if code in LimitCodes {
      LimitErrorStatus(code, message);
    } else {
      OtherLibraryErrorStatus(code, message);
    }
  }

  /** A limit code is answered with a 400 whose code is "FileInvalidArgument". */
  lemma {:induction false} LimitErrorStatus(code: string, message: string)
    requires code in LimitCodes
    ensures var r := HandleError(MapUploadError(MulterError(code, message)).error);
      r.status == 400 && r.body.code == "FileInvalidArgument"
  {
    var e := MapUploadError(MulterError(code, message)).error;
    if code == "LIMIT_FILE_SIZE" {
      FileArgumentResponse("File too large (max 5MB)");
    } else if code == "LIMIT_FILE_COUNT" {
      FileArgumentResponse("Too many files (max 5)");
    } else {
      assert code == "LIMIT_UNEXPECTED_FILE";
      FileArgumentResponse("Unexpected field");
    }
  }

  /** A refused file argument is a 400 with code "FileInvalidArgument". */
  lemma {:induction false} FileArgumentResponse(message: string)
    ensures HandleError(InvalidArgumentError("File", message)) == Response(400, CodeMessage("FileInvalidArgument", message))
  {
    assert "File" + DefaultName(InvalidArgument) == "FileInvalidArgument";
  }

  /** Any other library code is answered with a 500 whose code is "MulterError". */
  lemma {:induction false} OtherLibraryErrorStatus(code: string, message: string)
    requires code !in LimitCodes
    ensures HandleError(MapUploadError(MulterError(code, message)).error)
         == Response(500, CodeMessage("MulterError", message))
  {
    assert "MulterError" + DefaultName(Server) == "MulterError";
  }
}
