/**
 * The stand-alone server in app.py: `allowed_file` and its `upload_file`,
 * which saves an allowed file under app/static/uploads and answers every
 * failure with a 500 JSON body.
 */
module RootApp {
  import opened Wrappers
  import opened Text
  import opened Http

  /** `ALLOWED_EXTENSIONS`: without dots, and without "jpeg". */
  const AllowedExtensions: seq<string> := ["nii", "gz", "dcm", "jpg", "png", "bmp"]

  /** `'.' in filename and filename.rsplit('.', 1)[1].lower() in ALLOWED_EXTENSIONS`. */
  function AllowedFile(filename: string): bool {
    '.' in filename && Lower(AfterLast(filename, '.')) in AllowedExtensions
  }

  /** Only the text after the last dot decides, and case does not matter. */
  lemma AllowedFileOfName(stem: string, ext: string)
    requires '.' !in ext
    ensures AllowedFile(stem + "." + ext) <==> Lower(ext) in AllowedExtensions
  {
    var f := stem + "." + ext;
    assert f[|stem|] == '.';
    var k := LastIndexOf(f, '.');
    assert forall i | |stem| < i < |f| :: f[i] == ext[i - |stem| - 1];
    assert k == |stem|;
    assert AfterLast(f, '.') == ext;
  }

  /** A name without a dot is refused whatever it says. */
  lemma NoDotRefused(filename: string)
    requires '.' !in filename
    ensures !AllowedFile(filename)
  {
  }

  /** Upper case passes: a ".NII" name is allowed. */
  lemma UpperCaseAllowed(stem: string)
    ensures AllowedFile(stem + ".NII")
  {
    AllowedFileOfName(stem, "NII");
    assert stem + "." + "NII" == stem + ".NII";
    LowerOfThree('N', 'I', 'I');
    assert "NII" == ['N', 'I', 'I'] && "nii" == ['n', 'i', 'i'];
  }

  /** Any ".gz" name passes, a compressed NIfTI and a tarball alike. */
  lemma CompressedAllowed(stem: string)
    ensures AllowedFile(stem + ".gz")
  {
    AllowedFileOfName(stem, "gz");
    assert stem + "." + "gz" == stem + ".gz";
    assert Lower("gz") == "gz";
  }

  /** ".jpeg" is refused although the other routes accept it. */
  lemma JpegRefused(stem: string)
    ensures !AllowedFile(stem + ".jpeg")
  {
    AllowedFileOfName(stem, "jpeg");
    assert stem + "." + "jpeg" == stem + ".jpeg";
    assert Lower("jpeg") == "jpeg";
  }

  /** A trailing dot leaves an empty extension, which is refused. */
  lemma TrailingDotRefused(stem: string)
    ensures !AllowedFile(stem + ".")
  {
    AllowedFileOfName(stem, "");
    assert stem + "." + "" == stem + ".";
  }

  /** The JSON answer of `upload_file`. */
  datatype SaveResponse =
    | Saved(url: string, filename: string)
    | Failed(status: nat, message: string)

  /**
   * `upload_file` of app.py, called with its arguments: `ioFails` says
   * that writing the file under app/static/uploads raises.  `file` is None
   * only in a direct call.  Over HTTP the parameter is declared required
   * (`File(...)`, line 48), so FastAPI answers a request without a file
   * with 422 before the handler runs, and an `UploadFile` is never falsy.
   * The HTTPExceptions of lines 52 and 55 are caught by line 72 like any
   * other exception, so every failure of the handler is the same 500 body.
   */
  function SaveUpload(file: Option<string>, ioFails: bool): (r: SaveResponse)
    ensures r.Failed? ==> r.status == ServerError && r.message == "Upload failed"
    ensures r.Saved? <==> file.Some? && AllowedFile(file.value) && !ioFails
    ensures r.Saved? ==> r.filename == file.value && r.url == "/static/uploads/" + file.value
  {
    var failed := Failed(ServerError, "Upload failed");
    match file
    case None => failed
    case Some(name) =>
      if !AllowedFile(name) then failed
      else if ioFails then failed
      else Saved("/static/uploads/" + name, name)
  }
}
