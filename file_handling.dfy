/**
 * app/utils/file_handling.py: `process_file` picks a loader by the text
 * after the last dot of the lowercased name; `process_image_file` averages
 * the channels of a three-dimensional image.  The loaders themselves are
 * library calls: their result is the parameter `decoded`.
 */
module FileHandling {
  import opened Wrappers
  import opened Floats
  import opened Arrays
  import opened Text

  /** `filename.lower().split('.')[-1]`: the whole name when it has no dot. */
  function Extension(filename: string): (r: string)
    ensures '.' !in r
    ensures '.' !in filename ==> r == Lower(filename)
  {
    AfterLast(Lower(filename), '.')
  }

  datatype Handler = NiftiHandler | DicomHandler | ImageHandler

  /** Lines 13-20: the handler for an extension, or the ValueError's message. */
  function DispatchExtension(ext: string): (r: Result<Handler, string>)
    ensures r.Err? ==> r.error == "Unsupported file type: " + ext
  {
    if ext in ["nii", "nii.gz"] then Ok(NiftiHandler)
    else if ext == "dcm" then Ok(DicomHandler)
    else if ext in ["jpg", "jpeg", "png", "bmp"] then Ok(ImageHandler)
    else Err("Unsupported file type: " + ext)
  }

  function Dispatch(filename: string): Result<Handler, string> {
    DispatchExtension(Extension(filename))
  }

  /** An extension without a dot is accepted exactly when it is one of six. */
  lemma DispatchOfExtension(e: string)
    requires '.' !in e
    ensures DispatchExtension(e).Ok? <==> e in ["nii", "dcm", "jpg", "jpeg", "png", "bmp"]
    ensures e == "nii" ==> DispatchExtension(e) == Ok(NiftiHandler)
    ensures e == "dcm" ==> DispatchExtension(e) == Ok(DicomHandler)
    ensures e in ["jpg", "jpeg", "png", "bmp"] ==> DispatchExtension(e) == Ok(ImageHandler)
  {
    assert e != "nii.gz" by { assert "nii.gz"[3] == '.'; }
  }

  /**
   * The handler of a name is decided by its last extension, in any case:
   * "nii" to NIfTI, "dcm" to DICOM, "jpg", "jpeg", "png", "bmp" to Pillow,
   * anything else refused.
   */
  lemma DispatchOfName(stem: string, ext: string)
    requires '.' !in ext
    ensures Extension(stem + "." + ext) == Lower(ext)
    ensures Dispatch(stem + "." + ext) == DispatchExtension(Lower(ext))
    ensures Dispatch(stem + "." + ext).Ok? <==> Lower(ext) in ["nii", "dcm", "jpg", "jpeg", "png", "bmp"]
  {
    ExtensionOfName(stem, ext);
    DispatchOfExtension(Lower(ext));
  }

  lemma ExtensionOfName(stem: string, ext: string)
    requires '.' !in ext
    ensures Extension(stem + "." + ext) == Lower(ext)
  {
    LowerAppend(stem + ".", ext);
    LowerAppend(stem, ".");
    assert Lower(".") == ".";
    LowerKeepsOut(ext, '.');
    assert stem + "." == stem + ['.'];
    AfterLastOf(Lower(stem), Lower(ext), '.');
  }

  /** The "nii.gz" entry can never match: a compressed NIfTI name is refused with extension "gz". */
  lemma CompressedNiftiRefused(stem: string)
    ensures Extension(stem + ".nii.gz") == "gz"
    ensures Dispatch(stem + ".nii.gz") == Err("Unsupported file type: gz")
  {
    assert stem + ".nii" + "." + "gz" == stem + ".nii.gz";
    ExtensionOfName(stem + ".nii", "gz");
    assert Lower("gz") == "gz";
    DispatchOfExtension("gz");
    assert "Unsupported file type: " + "gz" == "Unsupported file type: gz";
  }

  /** `process_image_file`: a three-dimensional image becomes the mean over its last axis. */
  function ProcessImageArray(a: NdArray<Float>): (r: NdArray<Float>)
    requires WellFormed(a)
    ensures WellFormed(r)
    ensures Rank(a) == 3 ==> r.shape == a.shape[..2] && |r.flat| == a.shape[0] * a.shape[1]
    ensures Rank(a) == 3 ==> |a.flat| == (a.shape[0] * a.shape[1]) * a.shape[2]
    ensures Rank(a) == 3 ==>
              forall k | 0 <= k < |r.flat| :: r.flat[k] == Mean(Block(a.flat, k, a.shape[0] * a.shape[1], a.shape[2]))
    ensures Rank(a) != 3 ==> r == a
  {
    if Rank(a) == 3 then MeanAxis2(a) else a
  }

  /** The mean of a grey value repeated over every channel is that value. */
  lemma GreyChannelsKept(a: NdArray<Float>, k: nat, v: real)
    requires WellFormed(a) && Rank(a) == 3 && a.shape[2] > 0
    requires k < a.shape[0] * a.shape[1]
    requires |a.flat| == (a.shape[0] * a.shape[1]) * a.shape[2]
    requires forall m | 0 <= m < a.shape[2] :: Block(a.flat, k, a.shape[0] * a.shape[1], a.shape[2])[m] == Num(v)
    ensures ProcessImageArray(a).flat[k] == Num(v)
  {
    var b := Block(a.flat, k, a.shape[0] * a.shape[1], a.shape[2]);
    MeanOfRepeated(b, v);
  }

  /** The mean of one value repeated is that value. */
  lemma MeanOfRepeated(s: seq<Float>, v: real)
    requires s != [] && forall m | 0 <= m < |s| :: s[m] == Num(v)
    ensures Mean(s) == Num(v)
  {
    calc {
      Mean(s);
      Div(Sum(s), Num(|s| as real));
      { SumOfConstant(s, v); }
      Div(Num(|s| as real * v), Num(|s| as real));
      { MeanOfConstant(|s|, v); }
      Num(v);
    }
  }

  lemma MeanOfConstant(n: nat, v: real)
    requires n > 0
    ensures Div(Num(n as real * v), Num(n as real)) == Num(v)
  {
    assert (n as real * v) / n as real == v;
  }

  lemma {:induction false} SumOfConstant(s: seq<Float>, v: real)
    requires forall m | 0 <= m < |s| :: s[m] == Num(v)
    ensures Sum(s) == Num(|s| as real * v)
  {
    if s != [] {
      SumOfConstant(s[..|s| - 1], v);
      assert Sum(s) == Add(Sum(s[..|s| - 1]), s[|s| - 1]);
    }
  }

  /**
   * `process_file`: the decoded array, reduced to grey for Pillow images,
   * or the error it raises: an unsupported extension, or the loader
   * failing (decoded None).
   */
  function ProcessFile(filename: string, decoded: Option<NdArray<Float>>): (r: Result<NdArray<Float>, string>)
    requires decoded.Some? ==> WellFormed(decoded.value)
    ensures Dispatch(filename).Err? ==> r == Err(Dispatch(filename).error)
    ensures r.Ok? ==> decoded.Some? && Dispatch(filename).Ok?
    ensures r.Ok? && Dispatch(filename).value != ImageHandler ==> r.value == decoded.value
    ensures r.Ok? && Dispatch(filename).value == ImageHandler ==> r.value == ProcessImageArray(decoded.value)
  {
    var handler :- Dispatch(filename);
    match decoded
    // The loader's own exception propagates unchanged (line 23); its
    // message is not modelled, and this string stands for it.
    case None => Err("Error processing file")
    case Some(a) => if handler == ImageHandler then Ok(ProcessImageArray(a)) else Ok(a)
  }
}
