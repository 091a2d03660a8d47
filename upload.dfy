/**
 * The upload route (app/routes/upload.py): validate the file name, pick a
 * loader by suffix, bring the array into two or three dimensions, compute
 * the window, precompute the windowed slices, store the record under a
 * fresh id and answer with the slices as PNG data URLs.
 *
 * What the file libraries make of the bytes (nibabel, pydicom, Pillow) is
 * the parameter `decoded`: the array the chosen loader yields, or None when
 * it raises.  Creating the temporary file is the parameter `createFails`,
 * writing the content into it `writeFails`, the
 * uuid the parameter `imageId`, the PNG/base64 encoding `encodePng`.
 */
module Upload {
  import opened Wrappers
  import opened Floats
  import opened Arrays
  import opened Text
  import opened Http
  import opened Config
  import Windowing
  import ImageRoutes

  /**
   * The leading part of the 400 for a refused name; the source goes on to
   * join a Python set of the extensions, whose order is not fixed.
   */
  const UnsupportedUpload := "Unsupported file type. Supported formats are: "

  /** The suffix the loader is chosen by: ".nii.gz" whole, else `os.path.splitext`. */
  function UploadSuffix(filename: string): string {
    if EndsWith(filename, ".nii.gz") then ".nii.gz" else SplitExt(filename)
  }

  datatype Loader = NiftiLoader | DicomLoader | ImageLoader

  /** `if suffix in ['.nii', '.gz'] … elif suffix == '.dcm' … else …`. */
  function LoaderFor(suffix: string): Loader {
    if suffix == ".nii" || suffix == ".gz" then NiftiLoader
    else if suffix == ".dcm" then DicomLoader
    else ImageLoader
  }

  /** The loaded array and `total_slices`. */
  datatype Loaded = Loaded(data: NdArray<Float>, totalSlices: nat)

  const NiftiFailure := "Failed to load NIfTI file: "

  /**
   * The NIfTI branch after `get_fdata`: `data.min()` fails on an empty
   * array, fewer than two axes are refused, a 3-D array with an axis of
   * length 1 is squeezed (and then needs two axes left), a 4-D array keeps
   * its first volume, five or more axes are refused.  Every failure is a 400.
   */
  function NiftiVolume(a: NdArray<Float>): (r: Result<Loaded, HttpError>)
    requires WellFormed(a)
    ensures r.Err? ==> r.error.status == BadRequest
    ensures r.Err? <==> |a.flat| == 0 || Rank(a) < 2 || Rank(a) > 4 || (Rank(a) == 3 && 1 in a.shape && Rank(Squeeze(a)) != 2)
    ensures r.Ok? ==> WellFormed(r.value.data) && (Rank(r.value.data) == 2 || Rank(r.value.data) == 3)
    ensures r.Ok? ==> r.value.data.flat != [] && r.value.totalSlices == Windowing.SliceCount(r.value.data)
    ensures r.Ok? && Rank(a) <= 3 ==> r.value.data.flat == a.flat
  {
    if |a.flat| == 0 then Err(HttpError(BadRequest, NiftiFailure))
    else if Rank(a) < 2 then Err(HttpError(BadRequest, RankMessage("Invalid NIfTI data: Expected 2D or 3D data, but got ", "D data with shape ", a.shape)))
    else if Rank(a) == 2 then Ok(Loaded(a, 1))
    else if Rank(a) == 3 then
      if 1 in a.shape then
        var s := Squeeze(a);
        // `data.shape[2]` of a squeezed array with fewer than three axes raises.
        if Rank(s) == 2 then Ok(Loaded(s, 1)) else Err(HttpError(BadRequest, NiftiFailure))
      else Ok(Loaded(a, a.shape[2]))
    else if Rank(a) == 4 then
      ProductPositive(a.shape, 3);
      var v := LastIndexZero(a);
      NonEmptyVolume(a, v);
      Ok(Loaded(v, v.shape[2]))
    else Err(HttpError(BadRequest, RankMessage("Unsupported NIfTI dimensionality: ", "D with shape ", a.shape)))
  }

  /** `f"{before}{len(data.shape)}{between}{data.shape}"`. */
  function RankMessage(before: string, between: string, shape: seq<nat>): string {
    before + NatToDecimal(|shape|) + between + TupleRepr(shape)
  }

  /** The first volume of a non-empty 4-D array is not empty. */
  lemma NonEmptyVolume(a: NdArray<Float>, v: NdArray<Float>)
    requires WellFormed(a) && Rank(a) == 4 && |a.flat| > 0 && a.shape[3] > 0
    requires WellFormed(v) && v.shape == a.shape[..3]
    ensures v.flat != []
  {
    var s := a.shape;
    ProductPositive(s, 0);
    ProductPositive(s, 1);
    ProductPositive(s, 2);
    assert v.shape == [s[0], s[1], s[2]];
    ProductOfThree(s[0], s[1], s[2]);
    MulPositive(s[0], s[1]);
    MulPositive(s[0] * s[1], s[2]);
  }

  lemma MulPositive(a: nat, b: nat)
    requires a > 0 && b > 0
    ensures a * b > 0
  {
  }

  /** The Pillow branch: an RGB or RGBA image becomes the mean of its channels. */
  function FlattenColour(a: NdArray<Float>): (r: NdArray<Float>)
    requires WellFormed(a)
    ensures WellFormed(r)
    ensures Rank(a) == 3 && (a.shape[2] == 3 || a.shape[2] == 4) ==> r.shape == a.shape[..2]
    ensures !(Rank(a) == 3 && (a.shape[2] == 3 || a.shape[2] == 4)) ==> r == a
  {
    if Rank(a) == 3 && (a.shape[2] == 3 || a.shape[2] == 4) then MeanAxis2(a) else a
  }

  /** One loader over what its library decoded; a library failure is a 400. */
  function Load(loader: Loader, decoded: Option<NdArray<Float>>): (r: Result<Loaded, HttpError>)
    requires decoded.Some? ==> WellFormed(decoded.value)
    ensures r.Err? ==> r.error.status == BadRequest
    ensures decoded.None? ==> r.Err?
    ensures r.Ok? ==> WellFormed(r.value.data)
    ensures r.Ok? && loader != NiftiLoader ==> r.value.totalSlices == 1
  {
    match decoded
    case None =>
      Err(HttpError(BadRequest, match loader
                                case NiftiLoader => NiftiFailure
                                case DicomLoader => "Failed to load DICOM file: "
                                case ImageLoader => "Failed to load image file: "))
    case Some(a) =>
      match loader
      case NiftiLoader => NiftiVolume(a)
      case DicomLoader => Ok(Loaded(a, 1))
      case ImageLoader => Ok(Loaded(FlattenColour(a), 1))
  }

  /** The JSON body of a successful upload. */
  datatype UploadResponse = UploadResponse(
    slices: seq<string>,
    imageId: string,
    totalSlices: nat,
    windowWidth: real,
    windowCenter: real)

  const DataUrlPrefix := "data:image/png;base64,"

  /** `f"data:image/png;base64,{img_base64}"` for one windowed slice. */
  function DataUrl(slice: NdArray<Byte>, encodePng: NdArray<Byte> -> string): string {
    DataUrlPrefix + encodePng(slice)
  }

  const ProcessingFailure := "Error processing file: "

  /**
   * Everything after loading: the empty-array check, the window, the
   * slices, the record to store and the response.  A ValueError of the
   * processing functions is caught and reported as a 400.
   */
  function ProcessLoaded(l: Loaded, imageId: string, gamma: real -> real, undefinedByte: Byte,
                         encodePng: NdArray<Byte> -> string)
    : (r: Result<(UploadResponse, ImageRoutes.Record), HttpError>)
    requires WellFormed(l.data)
  {
    if |l.data.flat| == 0 then Err(HttpError(BadRequest, "Invalid image: Image contains no data"))
    else match Windowing.CalculateOptimalWindowSettings(l.data)
    case Err(_) => Err(HttpError(BadRequest, ProcessingFailure))
    case Ok(ws) =>
      match Windowing.PrecomputeReference(l.data, gamma, undefinedByte)
      case Err(_) => Err(HttpError(BadRequest, ProcessingFailure))
      case Ok(pre) =>
        if pre.slices == [] then Err(HttpError(BadRequest, "Failed to normalize image data"))
        else Ok(Processed(l, imageId, ws, pre, encodePng))
  }

  /** The response and the record built from the window settings and the mapped slices. */
  function Processed(l: Loaded, imageId: string, ws: Windowing.WindowSettings, pre: Windowing.Precomputed,
                     encodePng: NdArray<Byte> -> string): (UploadResponse, ImageRoutes.Record)
  {
    var urls := seq(|pre.slices|, i requires 0 <= i < |pre.slices| => DataUrl(pre.slices[i], encodePng));
    var stored := seq(|pre.slices|, i requires 0 <= i < |pre.slices| => ImageRoutes.ByteSlice(pre.slices[i]));
    var rec := ImageRoutes.Record(ImageRoutes.Whole(l.data), ws.width, ws.center, l.totalSlices,
                                  pre.dataMin, pre.dataMax, stored);
    (UploadResponse(urls, imageId, l.totalSlices, ws.width, ws.center), rec)
  }

  /** Non-empty data whose settings and slices are computed is processed into `Processed`. */
  lemma ProcessLoadedOk(l: Loaded, imageId: string, gamma: real -> real, undefinedByte: Byte,
                        encodePng: NdArray<Byte> -> string)
    requires WellFormed(l.data) && |l.data.flat| != 0
    requires Windowing.CalculateOptimalWindowSettings(l.data).Ok?
    requires Windowing.PrecomputeReference(l.data, gamma, undefinedByte).Ok?
    requires Windowing.PrecomputeReference(l.data, gamma, undefinedByte).value.slices != []
    ensures ProcessLoaded(l, imageId, gamma, undefinedByte, encodePng)
            == Ok(Processed(l, imageId, Windowing.CalculateOptimalWindowSettings(l.data).value,
                            Windowing.PrecomputeReference(l.data, gamma, undefinedByte).value, encodePng))
  {
  }

  /** The body the server sends for an exception no handler of the route catches. */
  const UnhandledError := "Internal Server Error"

  /**
   * `upload_file`: the response or the HTTP error, and on success the
   * record stored under `imageId`.
   */
  function UploadReference(filename: string, content: seq<Byte>, decoded: Option<NdArray<Float>>,
                           createFails: bool, writeFails: bool, imageId: string, gamma: real -> real, undefinedByte: Byte,
                           encodePng: NdArray<Byte> -> string)
    : (r: Result<(UploadResponse, ImageRoutes.Record), HttpError>)
    requires decoded.Some? ==> WellFormed(decoded.value)
  {
    var name := Lower(filename);
    if !EndsWithAllowed(name) then Err(HttpError(BadRequest, UnsupportedUpload))
    // Line 48 is outside every handler: the failure reaches the server's own 500.
    else if createFails then Err(HttpError(ServerError, UnhandledError))
    else if content == [] then Err(HttpError(BadRequest, "Empty file uploaded"))
    else if writeFails then Err(HttpError(ServerError, "Server error while handling file: "))
    else match Load(LoaderFor(UploadSuffix(name)), decoded)
    case Err(e) => Err(e)
    case Ok(l) => ProcessLoaded(l, imageId, gamma, undefinedByte, encodePng)
  }

  // ---- properties -------------------------------------------------------

  /**
   * Only a failure to create or to write the temporary file is a server
   * error; every error about the file itself is a 400.  The extension is
   * checked before the file is created and the empty content before it is
   * written, so an empty upload is a 400 even when writing would fail.
   */
  lemma UploadErrorStatus(filename: string, content: seq<Byte>, decoded: Option<NdArray<Float>>,
                          createFails: bool, writeFails: bool, imageId: string, gamma: real -> real, undefinedByte: Byte,
                          encodePng: NdArray<Byte> -> string)
    requires decoded.Some? ==> WellFormed(decoded.value)
    ensures var r := UploadReference(filename, content, decoded, createFails, writeFails, imageId, gamma, undefinedByte, encodePng);
      r.Err? ==> r.error.status == (if EndsWithAllowed(Lower(filename)) && (createFails || (writeFails && content != []))
                                   then ServerError else BadRequest)
    ensures EndsWithAllowed(Lower(filename)) && !createFails && content == [] ==>
      UploadReference(filename, content, decoded, createFails, writeFails, imageId, gamma, undefinedByte, encodePng)
        == Err(HttpError(BadRequest, "Empty file uploaded"))
    ensures !EndsWithAllowed(Lower(filename)) ==>
      UploadReference(filename, content, decoded, createFails, writeFails, imageId, gamma, undefinedByte, encodePng).Err?
    ensures content == [] ==>
      UploadReference(filename, content, decoded, createFails, writeFails, imageId, gamma, undefinedByte, encodePng).Err?
    ensures decoded.None? ==>
      UploadReference(filename, content, decoded, createFails, writeFails, imageId, gamma, undefinedByte, encodePng).Err?
  {
    var name := Lower(filename);
    if EndsWithAllowed(name) && !createFails && !writeFails && content != [] {
      var loaded := Load(LoaderFor(UploadSuffix(name)), decoded);
      if loaded.Ok? {
        ProcessStatus(loaded.value, imageId, gamma, undefinedByte, encodePng);
      }
    }
  }

  lemma ProcessStatus(l: Loaded, imageId: string, gamma: real -> real, undefinedByte: Byte,
                      encodePng: NdArray<Byte> -> string)
    requires WellFormed(l.data)
    ensures var r := ProcessLoaded(l, imageId, gamma, undefinedByte, encodePng);
      r.Err? ==> r.error.status == BadRequest
  {
  }

  /**
   * A successful upload stores the array it answered about, with the window
   * it reported, and answers with one data URL per stored slice; the stored
   * record satisfies the store's invariant.
   */
  lemma UploadStoresWhatItReports(filename: string, content: seq<Byte>, decoded: Option<NdArray<Float>>,
                                  createFails: bool, writeFails: bool, imageId: string, gamma: real -> real, undefinedByte: Byte,
                                  encodePng: NdArray<Byte> -> string)
    requires decoded.Some? ==> WellFormed(decoded.value)
    ensures var r := UploadReference(filename, content, decoded, createFails, writeFails, imageId, gamma, undefinedByte, encodePng);
      r.Ok? ==>
        var (resp, rec) := r.value;
        && ImageRoutes.RecordValid(rec)
        && rec.data.Whole?
        && Windowing.CalculateOptimalWindowSettings(rec.data.value)
             == Ok(Windowing.WindowSettings(resp.windowWidth, resp.windowCenter))
        && rec.windowWidth == resp.windowWidth >= 1.0
        && rec.windowCenter == resp.windowCenter
        && rec.totalSlices == resp.totalSlices
        && resp.imageId == imageId
        && |resp.slices| == |rec.normalizedSlices| > 0
        && (forall i | 0 <= i < |resp.slices| ::
              rec.normalizedSlices[i].ByteSlice? && resp.slices[i] == DataUrl(rec.normalizedSlices[i].bytes, encodePng))
        && rec.dataMax - rec.dataMin == rec.windowWidth
    ensures var r := UploadReference(filename, content, decoded, createFails, writeFails, imageId, gamma, undefinedByte, encodePng);
      r.Ok? ==> EndsWithAllowed(Lower(filename)) && !createFails && !writeFails && content != [] && decoded.Some?
  {
    var name := Lower(filename);
    if EndsWithAllowed(name) && !createFails && !writeFails && content != [] {
      var loaded := Load(LoaderFor(UploadSuffix(name)), decoded);
      if loaded.Ok? {
        ProcessRecord(loaded.value, imageId, gamma, undefinedByte, encodePng);
      }
    }
  }

  lemma ProcessRecord(l: Loaded, imageId: string, gamma: real -> real, undefinedByte: Byte,
                      encodePng: NdArray<Byte> -> string)
    requires WellFormed(l.data)
    ensures var r := ProcessLoaded(l, imageId, gamma, undefinedByte, encodePng);
      r.Ok? ==>
        var (resp, rec) := r.value;
        && ImageRoutes.RecordValid(rec)
        && rec.data == ImageRoutes.Whole(l.data)
        && Windowing.CalculateOptimalWindowSettings(l.data)
             == Ok(Windowing.WindowSettings(resp.windowWidth, resp.windowCenter))
        && rec.windowWidth == resp.windowWidth >= 1.0
        && rec.windowCenter == resp.windowCenter
        && rec.totalSlices == resp.totalSlices == l.totalSlices
        && resp.imageId == imageId
        && |resp.slices| == |rec.normalizedSlices| > 0
        && (forall i | 0 <= i < |resp.slices| ::
              rec.normalizedSlices[i].ByteSlice? && resp.slices[i] == DataUrl(rec.normalizedSlices[i].bytes, encodePng))
        && rec.dataMax - rec.dataMin == rec.windowWidth
  {
    var r := ProcessLoaded(l, imageId, gamma, undefinedByte, encodePng);
    if r.Ok? {
      var ws := Windowing.CalculateOptimalWindowSettings(l.data).value;
      var pre := Windowing.PrecomputeReference(l.data, gamma, undefinedByte).value;
      assert 1 <= Rank(l.data) <= 3;
      assert r.value.1.dataMax - r.value.1.dataMin == ws.width;
    }
  }

  /**
   * The '.gz' alternative of the NIfTI test never fires for an accepted
   * name: a ".nii.gz" name has the suffix ".nii.gz", which is neither
   * ".nii" nor ".gz", so it is read by Pillow; every name routed to the
   * NIfTI loader ends in ".nii".
   */
  lemma NiftiRoute(filename: string)
    requires EndsWithAllowed(filename)
    ensures EndsWith(filename, ".nii.gz") ==> LoaderFor(UploadSuffix(filename)) == ImageLoader
    ensures LoaderFor(UploadSuffix(filename)) == NiftiLoader ==> EndsWith(filename, ".nii")
  {
    var suffix := UploadSuffix(filename);
    if LoaderFor(suffix) == NiftiLoader && !EndsWith(filename, ".nii.gz") {
      var e :| e in AllowedFileExtensions && EndsWith(filename, e);
      assert suffix == SplitExt(filename);
      assert suffix == ".nii" || suffix == ".gz";
      if suffix == ".gz" {
        // A name ending in ".gz" is accepted only as ".nii.gz".
        assert EndsWith(filename, suffix);
        GzNotSupported(filename, e);
      }
      assert EndsWith(filename, suffix);
    }
  }

  /** The only accepted extension ending in "z" is ".nii.gz". */
  lemma GzNotSupported(filename: string, e: string)
    requires e in AllowedFileExtensions && EndsWith(filename, e) && EndsWith(filename, ".gz")
    ensures EndsWith(filename, ".nii.gz")
  {
    assert filename[|filename| - 1] == 'z';
    assert e[|e| - 1] == filename[|filename| - 1];
    assert e == ".nii.gz";
  }

  /** The suffix that picks the loader is the extension an ordinary name ends with. */
  lemma LoaderOfPlainName(stem: string, ext: string)
    requires |stem| > 0 && stem[|stem| - 1] != '.' && stem[|stem| - 1] != '/'
    requires ext in [".nii", ".dcm", ".jpg", ".jpeg", ".png", ".bmp"]
    ensures EndsWithAllowed(stem + ext)
    ensures LoaderFor(UploadSuffix(stem + ext))
              == if ext == ".nii" then NiftiLoader else if ext == ".dcm" then DicomLoader else ImageLoader
  {
    assert EndsWith(stem + ext, ext) by { assert (stem + ext)[|stem + ext| - |ext|..] == ext; }
    assert !EndsWith(stem + ext, ".nii.gz") by {
      assert (stem + ext)[|stem + ext| - 1] == ext[|ext| - 1];
    }
    SplitExtOf(stem, ext);
  }

  /**
   * Through the NIfTI loader `total_slices` is the number of slices
   * precomputed, so the response reports as many slices as it sends.
   */
  lemma NiftiSliceCount(filename: string, content: seq<Byte>, decoded: Option<NdArray<Float>>,
                        createFails: bool, writeFails: bool, imageId: string, gamma: real -> real, undefinedByte: Byte,
                        encodePng: NdArray<Byte> -> string)
    requires decoded.Some? ==> WellFormed(decoded.value)
    requires LoaderFor(UploadSuffix(Lower(filename))) == NiftiLoader
    ensures var r := UploadReference(filename, content, decoded, createFails, writeFails, imageId, gamma, undefinedByte, encodePng);
      r.Ok? ==> r.value.0.totalSlices == |r.value.0.slices|
  {
    var name := Lower(filename);
    if EndsWithAllowed(name) && !createFails && !writeFails && content != [] && decoded.Some? {
      var loaded := NiftiVolume(decoded.value);
      if loaded.Ok? {
        var l := loaded.value;
        var r := ProcessLoaded(l, imageId, gamma, undefinedByte, encodePng);
        if r.Ok? {
          var pre := Windowing.PrecomputeReference(l.data, gamma, undefinedByte).value;
          assert Windowing.ReshapeOneDim(l.data).value == l.data;
          assert |pre.slices| == Windowing.SliceCount(l.data);
        }
      }
    }
  }

  /**
   * Pillow and pydicom arrays always report one slice, while the slices are
   * cut along axis 2: a grey-and-alpha image (shape h×w×2) answers with two
   * slices and `total_slices` 1.
   */
  lemma TwoChannelImageMiscount(filename: string, content: seq<Byte>, a: NdArray<Float>, imageId: string,
                                gamma: real -> real, undefinedByte: Byte, encodePng: NdArray<Byte> -> string)
    requires WellFormed(a) && Rank(a) == 3 && a.shape[2] == 2 && a.flat != []
    requires EndsWithAllowed(Lower(filename)) && content != []
    requires LoaderFor(UploadSuffix(Lower(filename))) == ImageLoader
    ensures var r := UploadReference(filename, content, Some(a), false, false, imageId, gamma, undefinedByte, encodePng);
      r.Ok? && r.value.0.totalSlices == 1 && |r.value.0.slices| == 2
  {
    var l := Loaded(a, 1);
    var name := Lower(filename);
    assert FlattenColour(a) == a;
    assert Load(LoaderFor(UploadSuffix(name)), Some(a)) == Ok(l);
    ProcessSlices(l, imageId, gamma, undefinedByte, encodePng);
    assert UploadReference(filename, content, Some(a), false, false, imageId, gamma, undefinedByte, encodePng)
        == ProcessLoaded(l, imageId, gamma, undefinedByte, encodePng);
  }

  /** Non-empty 2-D or 3-D data with at least one slice is processed, one URL per slice. */
  lemma ProcessSlices(l: Loaded, imageId: string, gamma: real -> real, undefinedByte: Byte,
                      encodePng: NdArray<Byte> -> string)
    requires WellFormed(l.data) && (Rank(l.data) == 2 || Rank(l.data) == 3) && l.data.flat != []
    requires Windowing.SliceCount(l.data) > 0
    ensures var r := ProcessLoaded(l, imageId, gamma, undefinedByte, encodePng);
      r.Ok? && |r.value.0.slices| == Windowing.SliceCount(l.data) && r.value.0.totalSlices == l.totalSlices
  {
    assert Windowing.ReshapeOneDim(l.data).value == l.data;
    assert Windowing.CalculateOptimalWindowSettings(l.data).Ok?;
    var pre := Windowing.PrecomputeReference(l.data, gamma, undefinedByte);
    assert pre.Ok? && |pre.value.slices| == Windowing.SliceCount(l.data);
  }

  // ---- the route --------------------------------------------------------

  /** The slices loop: one data URL per windowed slice, in order. */
  method EncodeSlices(slices: seq<NdArray<Byte>>, encodePng: NdArray<Byte> -> string) returns (urls: seq<string>)
    ensures |urls| == |slices|
    ensures forall i | 0 <= i < |slices| :: urls[i] == DataUrl(slices[i], encodePng)
  {
    urls := [];
    var i := 0;
    while i < |slices|
      invariant 0 <= i <= |slices|
      invariant |urls| == i
      invariant forall j | 0 <= j < i :: urls[j] == DataUrl(slices[j], encodePng)
    {
      urls := urls + [DataUrl(slices[i], encodePng)];
      i := i + 1;
    }
  }

  /**
   * `upload_file` against the shared store: answers as `UploadReference`
   * and, exactly when that succeeds, stores its record under `imageId`.
   */
  method UploadFile(store: ImageRoutes.ImageStore, filename: string, content: seq<Byte>,
                    decoded: Option<NdArray<Float>>, createFails: bool, writeFails: bool, imageId: string,
                    gamma: real -> real, undefinedByte: Byte, encodePng: NdArray<Byte> -> string)
    returns (r: Result<UploadResponse, HttpError>)
    requires store.Valid() && (decoded.Some? ==> WellFormed(decoded.value))
    modifies store
    ensures store.Valid()
    ensures var expected := UploadReference(filename, content, decoded, createFails, writeFails, imageId, gamma, undefinedByte, encodePng);
      && r == (if expected.Ok? then Ok(expected.value.0) else Err(expected.error))
      && store.storage == if expected.Ok? then old(store.storage)[imageId := expected.value.1] else old(store.storage)
  {
    var name := Lower(filename);
    if !EndsWithAllowed(name) {
      return Err(HttpError(BadRequest, UnsupportedUpload));
    }
    if createFails {
      return Err(HttpError(ServerError, UnhandledError));
    }
    if content == [] {
      return Err(HttpError(BadRequest, "Empty file uploaded"));
    }
    if writeFails {
      return Err(HttpError(ServerError, "Server error while handling file: "));
    }
    var loaded := Load(LoaderFor(UploadSuffix(name)), decoded);
    if loaded.Err? {
      return Err(loaded.error);
    }
    r := ProcessAndStore(store, loaded.value, imageId, gamma, undefinedByte, encodePng);
  }

  /** Lines 161-214: process a loaded array and store its record on success. */
  method ProcessAndStore(store: ImageRoutes.ImageStore, l: Loaded, imageId: string,
                         gamma: real -> real, undefinedByte: Byte, encodePng: NdArray<Byte> -> string)
    returns (r: Result<UploadResponse, HttpError>)
    requires store.Valid() && WellFormed(l.data)
    modifies store
    ensures store.Valid()
    ensures var expected := ProcessLoaded(l, imageId, gamma, undefinedByte, encodePng);
      && r == (if expected.Ok? then Ok(expected.value.0) else Err(expected.error))
      && store.storage == if expected.Ok? then old(store.storage)[imageId := expected.value.1] else old(store.storage)
  {
    if |l.data.flat| == 0 {
      return Err(HttpError(BadRequest, "Invalid image: Image contains no data"));
    }
    var settings := Windowing.CalculateOptimalWindowSettings(l.data);
    if settings.Err? {
      return Err(HttpError(BadRequest, ProcessingFailure));
    }
    var ws := settings.value;
    var pre := Windowing.PrecomputeNormalizedSlices(l.data, gamma, undefinedByte);
    if pre.Err? {
      return Err(HttpError(BadRequest, ProcessingFailure));
    }
    var slices := pre.value.slices;
    if slices == [] {
      return Err(HttpError(BadRequest, "Failed to normalize image data"));
    }
    var urls := EncodeSlices(slices, encodePng);
    var stored := seq(|slices|, i requires 0 <= i < |slices| => ImageRoutes.ByteSlice(slices[i]));
    var rec := ImageRoutes.Record(ImageRoutes.Whole(l.data), ws.width, ws.center, l.totalSlices,
                                  pre.value.dataMin, pre.value.dataMax, stored);
    var resp := UploadResponse(urls, imageId, l.totalSlices, ws.width, ws.center);
    ghost var expected := Processed(l, imageId, ws, pre.value, encodePng);
    assert urls == expected.0.slices by {
      assert |urls| == |expected.0.slices|;
      forall i | 0 <= i < |urls| ensures urls[i] == expected.0.slices[i] { }
    }
    assert stored == expected.1.normalizedSlices by {
      assert |stored| == |expected.1.normalizedSlices|;
      forall i | 0 <= i < |stored| ensures stored[i] == expected.1.normalizedSlices[i] { }
    }
    assert (resp, rec) == expected;
    ProcessLoadedOk(l, imageId, gamma, undefinedByte, encodePng);
    ProcessRecord(l, imageId, gamma, undefinedByte, encodePng);
    store.Put(imageId, rec);
    r := Ok(resp);
  }
}
