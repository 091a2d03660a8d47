/**
 * The directory routes (app/routes/directory.py): listing a directory under
 * `images` and loading one file from it as raw 8-bit slices.
 *
 * The file system is three parameters: `isDir` and `isFile` answer for a
 * path, `listDir` gives the names in a directory (None when listing
 * raises), and `makedirsFails` says that creating a missing `images`
 * directory raised.  What nibabel, pydicom and Pillow decode is the parameter
 * `decoded`; base64 is the parameter `base64`.  Paths stay relative to the
 * working directory: the absolute prefix `os.path.abspath(os.getcwd())`
 * adds nothing to the decisions.
 */
module Directory {
  import opened Wrappers
  import opened Floats
  import opened Arrays
  import opened Text
  import opened Http
  import opened Config

  // ---- list_directory -------------------------------------------------

  /** Lines 22-24: backslashes become '/', and a path not under "images" is "images". */
  function ListingPath(path: string): string {
    var p := ReplaceChar(path, '\\', '/');
    if StartsWith(p, "images") then p else "images"
  }

  lemma NoBackslashUnchanged(p: string)
    requires '\\' !in p
    ensures ReplaceChar(p, '\\', '/') == p
  {
  }

  /**
   * The listing path starts with "images", holds no backslash, is kept
   * verbatim exactly when it already started with "images", and
   * normalising twice changes nothing.
   */
  lemma ListingPathNormal(path: string)
    ensures StartsWith(ListingPath(path), "images")
    ensures '\\' !in ListingPath(path)
    ensures ListingPath(path) == ReplaceChar(path, '\\', '/') <==> StartsWith(ReplaceChar(path, '\\', '/'), "images")
    ensures ListingPath(ListingPath(path)) == ListingPath(path)
  {
    var p := ListingPath(path);
    assert '\\' !in "images";
    NoBackslashUnchanged(p);
  }

  /** Only the prefix is checked: a path that climbs out of "images" is kept. */
  lemma ListingKeepsParentSteps(rest: string)
    requires '\\' !in rest
    ensures ListingPath("images/.." + rest) == "images/.." + rest
  {
    var p := "images/.." + rest;
    assert p[..6] == "images";
    assert forall k | 0 <= k < |p| :: p[k] != '\\';
    CleanListingPath(p);
  }

  /** A path without backslashes is kept when it starts with "images" and replaced otherwise. */
  lemma CleanListingPath(p: string)
    ensures '\\' !in p ==> ListingPath(p) == if StartsWith(p, "images") then p else "images"
  {
    if '\\' !in p {
      NoBackslashUnchanged(p);
    }
  }

  /**
   * `os.path.join(directory, item)` for an item without '/', as
   * `os.listdir` gives: a '/' is put between them unless the directory is
   * empty or already ends in one.
   */
  function JoinPath(directory: string, item: string): string {
    if directory == [] || directory[|directory| - 1] == '/' then directory + item
    else directory + "/" + item
  }

  predicate Hidden(name: string) { StartsWith(name, ".") }

  // Python orders strings by code point, lexicographically.

  predicate LexLe(a: string, b: string)
    decreases |a|
  {
    |a| == 0 || (|b| > 0 && (a[0] < b[0] || (a[0] == b[0] && LexLe(a[1..], b[1..]))))
  }

  lemma {:induction false} LexTotal(a: string, b: string)
    ensures LexLe(a, b) || LexLe(b, a)
    decreases |a|
  {
    if |a| > 0 && |b| > 0 && a[0] == b[0] {
      LexTotal(a[1..], b[1..]);
    }
  }

  lemma {:induction false} LexTrans(a: string, b: string, c: string)
    requires LexLe(a, b) && LexLe(b, c)
    ensures LexLe(a, c)
    decreases |a|
  {
    if |a| > 0 && a[0] == b[0] && b[0] == c[0] {
      LexTrans(a[1..], b[1..], c[1..]);
    }
  }

  ghost predicate NamesSorted(s: seq<string>) {
    forall i, j | 0 <= i < j < |s| :: LexLe(s[i], s[j])
  }

  /** Every name in s comes at or after b. */
  ghost predicate AllAfter(b: string, s: seq<string>) {
    forall k | 0 <= k < |s| :: LexLe(b, s[k])
  }

  lemma SortedNamesCons(b: string, s: seq<string>)
    requires NamesSorted(s) && AllAfter(b, s)
    ensures NamesSorted([b] + s)
  {
    var t := [b] + s;
    forall i, j | 0 <= i < j < |t| ensures LexLe(t[i], t[j]) {
      assert t[j] == s[j - 1];
      if i > 0 { assert t[i] == s[i - 1]; }
    }
  }

  function InsertName(x: string, s: seq<string>): (r: seq<string>)
    requires NamesSorted(s)
    ensures NamesSorted(r) && multiset(r) == multiset(s) + multiset{x}
  {
    if s == [] then [x]
    else if LexLe(x, s[0]) then
      assert AllAfter(x, s) by {
        forall k | 0 <= k < |s| ensures LexLe(x, s[k]) {
          if k > 0 { LexTrans(x, s[0], s[k]); }
        }
      }
      SortedNamesCons(x, s);
      [x] + s
    else
      assert s == [s[0]] + s[1..];
      LexTotal(x, s[0]);
      var t := InsertName(x, s[1..]);
      assert AllAfter(s[0], t) by {
        forall k | 0 <= k < |t| ensures LexLe(s[0], t[k]) {
          assert t[k] in multiset(t);
          if t[k] != x {
            assert t[k] in multiset(s[1..]);
            var m :| 0 <= m < |s[1..]| && s[1..][m] == t[k];
            assert s[m + 1] == t[k];
          }
        }
      }
      SortedNamesCons(s[0], t);
      [s[0]] + t
  }

  /** `sorted(names)`: ascending, and the same names. */
  function SortNames(s: seq<string>): (r: seq<string>)
    ensures NamesSorted(r) && multiset(r) == multiset(s)
  {
    if s == [] then []
    else
      assert s == [s[0]] + s[1..];
      InsertName(s[0], SortNames(s[1..]))
  }

  datatype Listing = Listing(files: seq<string>, directories: seq<string>)

  /**
   * Lines 47-61 over the first names: hidden names are skipped, directories
   * are listed, other entries are listed as files when their lowercased
   * name has an allowed extension.
   */
  function ListingOf(names: seq<string>, target: string, isDir: string -> bool): Listing {
    if names == [] then Listing([], [])
    else
      var prev := ListingOf(names[..|names| - 1], target, isDir);
      var item := names[|names| - 1];
      if Hidden(item) then prev
      else if isDir(JoinPath(target, item)) then Listing(prev.files, prev.directories + [item])
      else if EndsWithAllowed(Lower(item)) then Listing(prev.files + [item], prev.directories)
      else prev
  }

  predicate ListedFile(item: string, target: string, isDir: string -> bool) {
    !Hidden(item) && !isDir(JoinPath(target, item)) && EndsWithAllowed(Lower(item))
  }

  predicate ListedDirectory(item: string, target: string, isDir: string -> bool) {
    !Hidden(item) && isDir(JoinPath(target, item))
  }

  /**
   * A name is listed as a file exactly when it is a visible, non-directory
   * entry with an allowed extension, and as a directory exactly when it is
   * a visible directory.
   */
  lemma {:induction false} ListingMembers(names: seq<string>, target: string, isDir: string -> bool, x: string)
    ensures x in ListingOf(names, target, isDir).files <==> x in names && ListedFile(x, target, isDir)
    ensures x in ListingOf(names, target, isDir).directories <==> x in names && ListedDirectory(x, target, isDir)
  {
    if names != [] {
      var init := names[..|names| - 1];
      assert names == init + [names[|names| - 1]];
      ListingMembers(init, target, isDir, x);
    }
  }

  /** No name is listed both as a file and as a directory. */
  lemma ListingDisjoint(names: seq<string>, target: string, isDir: string -> bool, x: string)
    ensures !(x in ListingOf(names, target, isDir).files && x in ListingOf(names, target, isDir).directories)
  {
    ListingMembers(names, target, isDir, x);
  }

  /** Both lists keep the order of the names they are drawn from. */
  lemma {:induction false} ListingSorted(names: seq<string>, target: string, isDir: string -> bool)
    requires NamesSorted(names)
    ensures NamesSorted(ListingOf(names, target, isDir).files)
    ensures NamesSorted(ListingOf(names, target, isDir).directories)
  {
    if names != [] {
      var init := names[..|names| - 1];
      var item := names[|names| - 1];
      var prev := ListingOf(init, target, isDir);
      ListingSorted(init, target, isDir);
      forall x | x in prev.files || x in prev.directories ensures LexLe(x, item) {
        ListingMembers(init, target, isDir, x);
        var m :| 0 <= m < |init| && init[m] == x;
        assert names[m] == x;
      }
      AppendSorted(prev.files, item);
      AppendSorted(prev.directories, item);
    }
  }

  lemma AppendSorted(s: seq<string>, x: string)
    requires NamesSorted(s) && forall y | y in s :: LexLe(y, x)
    ensures NamesSorted(s + [x])
  {
    var t := s + [x];
    forall i, j | 0 <= i < j < |t| ensures LexLe(t[i], t[j]) {
      assert t[i] == s[i];
      if j < |s| { assert t[j] == s[j]; } else { assert s[i] in s; }
    }
  }

  /**
   * The detail of a failed `os.listdir`.  The outer `except Exception`
   * (lines 76-81) catches the inner HTTPException too and wraps its text,
   * "500: " and the inner detail, once more; the source then appends
   * `str(e)`, which is not modelled.
   */
  const ListingFailure := "Error in list_directory: 500: Error listing directory contents: "

  /** The leading part of the 500 for a failed `os.makedirs` of "images"; `str(e)` follows. */
  const MakedirsFailure := "Error in list_directory: "

  /**
   * `list_directory`: the listing of the normalised path, or of "images"
   * when that is no directory.  `makedirsFails` says that "images" was
   * missing and `os.makedirs` raised (lines 32-35).
   */
  function ListingReference(path: string, makedirsFails: bool, isDir: string -> bool,
                            listDir: string -> Option<seq<string>>)
    : Result<Listing, HttpError>
  {
    var p := ListingPath(path);
    var target := if isDir(p) then p else "images";
    if makedirsFails then Err(HttpError(ServerError, MakedirsFailure))
    else match listDir(target)
    case None => Err(HttpError(ServerError, ListingFailure))
    case Some(names) => Ok(ListingOf(SortNames(names), target, isDir))
  }

  /**
   * What a listing holds: sorted files and sorted directories, disjoint,
   * exactly the visible entries of the listed directory that qualify.
   */
  lemma ListingContents(path: string, makedirsFails: bool, isDir: string -> bool,
                         listDir: string -> Option<seq<string>>, x: string)
    ensures var r := ListingReference(path, makedirsFails, isDir, listDir);
      var p := ListingPath(path);
      var target := if isDir(p) then p else "images";
      && (r.Err? <==> makedirsFails || listDir(target).None?)
      && (r.Err? ==> r.error.status == ServerError)
      && (makedirsFails ==> r == Err(HttpError(ServerError, MakedirsFailure)))
      && (!makedirsFails && listDir(target).None? ==> r == Err(HttpError(ServerError, ListingFailure)))
      && (r.Ok? ==>
            && NamesSorted(r.value.files) && NamesSorted(r.value.directories)
            && (x in r.value.files <==> x in listDir(target).value && ListedFile(x, target, isDir))
            && (x in r.value.directories <==> x in listDir(target).value && ListedDirectory(x, target, isDir)))
  {
    var p := ListingPath(path);
    var target := if isDir(p) then p else "images";
    if !makedirsFails && listDir(target).Some? {
      var names := listDir(target).value;
      var sorted := SortNames(names);
      ListingSorted(sorted, target, isDir);
      ListingMembers(sorted, target, isDir, x);
      assert x in sorted <==> x in names by {
        assert x in sorted <==> x in multiset(sorted);
        assert x in names <==> x in multiset(names);
      }
    }
  }

  /** The listing loop. */
  method ListEntries(names: seq<string>, target: string, isDir: string -> bool) returns (r: Listing)
    ensures r == ListingOf(names, target, isDir)
  {
    var files: seq<string> := [];
    var directories: seq<string> := [];
    var i := 0;
    while i < |names|
      invariant 0 <= i <= |names|
      invariant Listing(files, directories) == ListingOf(names[..i], target, isDir)
    {
      var item := names[i];
      assert names[..i + 1][..i] == names[..i];
      if Hidden(item) {
      } else if isDir(JoinPath(target, item)) {
        directories := directories + [item];
      } else if EndsWithAllowed(Lower(item)) {
        files := files + [item];
      }
      i := i + 1;
    }
    assert names[..|names|] == names;
    r := Listing(files, directories);
  }

  method ListDirectory(path: string, makedirsFails: bool, isDir: string -> bool,
                       listDir: string -> Option<seq<string>>)
    returns (r: Result<Listing, HttpError>)
    ensures r == ListingReference(path, makedirsFails, isDir, listDir)
  {
    var p := ListingPath(path);
    if makedirsFails {
      return Err(HttpError(ServerError, MakedirsFailure));
    }
    var target := if isDir(p) then p else "images";
    var names := listDir(target);
    if names.None? {
      return Err(HttpError(ServerError, ListingFailure));
    }
    var listing := ListEntries(SortNames(names.value), target, isDir);
    return Ok(listing);
  }

  // ---- load_remote_file -----------------------------------------------

  /** Lines 90-92: backslashes become '/', and "images/" is put in front when missing. */
  function LoadPath(path: string): (r: string)
    ensures StartsWith(r, "images/")
    ensures '\\' !in r
  {
    var p := ReplaceChar(path, '\\', '/');
    assert '\\' !in "images/";
    if StartsWith(p, "images/") then p else "images/" + p
  }

  /** Normalising a load path twice changes nothing, and a path already under "images/" is kept. */
  lemma LoadPathIdempotent(path: string)
    ensures LoadPath(LoadPath(path)) == LoadPath(path)
    ensures '\\' !in path && StartsWith(path, "images/") ==> LoadPath(path) == path
  {
    NoBackslashUnchanged(LoadPath(path));
    if '\\' !in path { NoBackslashUnchanged(path); }
  }

  /** Lines 107-109: the extension, with ".nii.gz" kept whole. */
  function LoadExtension(path: string): string {
    var ext := Lower(SplitExt(path));
    if ext == ".gz" && EndsWith(Lower(path), ".nii.gz") then ".nii.gz" else ext
  }

  datatype FileKind = NiftiFile | DicomFile | PictureFile

  function KindOf(ext: string): FileKind {
    if ext == ".nii" || ext == ".nii.gz" then NiftiFile
    else if ext == ".dcm" then DicomFile
    else PictureFile
  }

  /** Unlike the upload route, this route reads a ".nii.gz" path with nibabel. */
  lemma CompressedNiftiIsNifti(path: string)
    requires EndsWith(Lower(path), ".nii.gz")
    ensures KindOf(LoadExtension(path)) == NiftiFile
  {
    var n := |path|;
    var low := Lower(path);
    assert n >= 7 && LowerChar(path[n - 4]) == 'i' && LowerChar(path[n - 3]) == '.'
           && LowerChar(path[n - 2]) == 'g' && LowerChar(path[n - 1]) == 'z' by {
      assert low[n - 7..] == ".nii.gz";
      assert low[n - 4] == 'i' && low[n - 3] == '.' && low[n - 2] == 'g' && low[n - 1] == 'z';
    }
    GzExtension(path);
  }

  /** A path ending in a letter and then ".gz", in any case, has extension ".gz". */
  lemma GzExtension(path: string)
    requires |path| >= 4
    requires var n := |path|;
      LowerChar(path[n - 4]) == 'i' && LowerChar(path[n - 3]) == '.'
      && LowerChar(path[n - 2]) == 'g' && LowerChar(path[n - 1]) == 'z'
    ensures Lower(SplitExt(path)) == ".gz"
  {
    var n := |path|;
    var stem, ext := path[..n - 3], path[n - 3..];
    var a, b, c := path[n - 3], path[n - 2], path[n - 1];
    assert path == stem + ext;
    assert ext == [a, b, c];
    assert stem[|stem| - 1] == path[n - 4];
    SplitExtOf(stem, ext);
    LowerOfThree(a, b, c);
  }

  datatype LoadedFile = LoadedFile(data: seq<string>, dimensions: seq<nat>, minValue: Float, maxValue: Float)

  /** `((v - min_val) / (max_val - min_val) * 255).astype(np.uint8)`. */
  function NormalizeElement(v: Float, lo: Float, hi: Float, undefinedByte: Byte): Byte {
    ToUint8(Scale(Div(Sub(v, lo), Sub(hi, lo)), 255.0), undefinedByte)
  }

  function NormalizeSlice(s: NdArray<Float>, lo: Float, hi: Float, undefinedByte: Byte): (r: NdArray<Byte>)
    ensures r.shape == s.shape && |r.flat| == |s.flat|
    ensures forall k | 0 <= k < |s.flat| :: r.flat[k] == NormalizeElement(s.flat[k], lo, hi, undefinedByte)
  {
    Map(s, v => NormalizeElement(v, lo, hi, undefinedByte))
  }

  /** The position of v in [lo, hi], scaled to 0..255 and rounded down. */
  function ScaledByte(v: real, lo: real, hi: real): int
    requires lo < hi
  {
    ((v - lo) / (hi - lo) * 255.0).Floor
  }

  /** Within a proper range a value maps to the floor of its position, scaled to 0..255. */
  lemma NormalizeInRange(v: real, lo: real, hi: real, undefinedByte: Byte)
    requires lo <= v <= hi && lo < hi
    ensures NormalizeElement(Num(v), Num(lo), Num(hi), undefinedByte) == ScaledByte(v, lo, hi)
    ensures 0 <= NormalizeElement(Num(v), Num(lo), Num(hi), undefinedByte) <= 255
  {
    var q := (v - lo) / (hi - lo);
    FractionBounds(v - lo, hi - lo);
    assert Div(Sub(Num(v), Num(lo)), Sub(Num(hi), Num(lo))) == Num(q);
    assert 0.0 <= q * 255.0 <= 255.0;
  }

  lemma FractionBounds(d: real, w: real)
    requires 0.0 <= d <= w && w > 0.0
    ensures 0.0 <= d / w <= 1.0
  {
  }

  /** A constant image has no range: every value is 0/0, NaN, and the cast is undefined. */
  lemma NormalizeConstant(v: real, undefinedByte: Byte)
    ensures NormalizeElement(Num(v), Num(v), Num(v), undefinedByte) == undefinedByte
  {
  }

  /** Lines 155-158: the axis-2 slices of 3-D data, the data itself otherwise. */
  function SlicesOf(data: NdArray<Float>): (r: seq<NdArray<Float>>)
    requires WellFormed(data)
    ensures |r| == if Rank(data) == 3 then data.shape[2] else 1
    ensures forall i, k | 0 <= i < |r| && 0 <= k < |r[i].flat| :: r[i].flat[k] in data.flat
  {
    if Rank(data) == 3 then
      var n := data.shape[2];
      var r := seq(n, i requires 0 <= i < n => AxisTwoSlice(data, i));
      assert forall i, k | 0 <= i < n && 0 <= k < |r[i].flat| :: r[i].flat[k] in data.flat by {
        forall i, k | 0 <= i < n && 0 <= k < |r[i].flat| ensures r[i].flat[k] in data.flat {
          assert r[i] == AxisTwoSlice(data, i);
          assert r[i].flat[k] == data.flat[k * data.shape[2] + i];
        }
      }
      r
    else [data]
  }

  /**
   * Lines 99-116, in order: a missing path is a 404, a path that is no
   * file a 400, a name without an allowed extension a 400.
   */
  function CheckedPath(path: string, pathExists: string -> bool, isFile: string -> bool): (r: Result<string, HttpError>)
  {
    var p := LoadPath(path);
    if !pathExists(p) then Err(HttpError(NotFound, "File not found: " + p))
    else if !isFile(p) then Err(HttpError(BadRequest, "Path is not a file"))
    else if !EndsWithAllowed(Lower(p)) then Err(HttpError(BadRequest, UnsupportedLoad))
    else Ok(p)
  }

  /**
   * The leading part of the 400 for a refused extension; the source goes on
   * to join a Python set of the extensions, whose order is not fixed.
   */
  const UnsupportedLoad := "Unsupported file type. Supported extensions: "

  const ProcessingFailure := "Error processing image: "

  /**
   * Lines 123-130 after decoding: a NIfTI volume with more than three axes
   * keeps index 0 of its last axis.  Indexing an empty last axis raises.
   */
  function FirstTimePoint(kind: FileKind, a: NdArray<Float>): (r: Result<NdArray<Float>, HttpError>)
    requires WellFormed(a)
    ensures r.Ok? ==> WellFormed(r.value)
    ensures r.Err? ==> r.error.status == ServerError
    ensures kind != NiftiFile || Rank(a) <= 3 ==> r == Ok(a)
  {
    if kind == NiftiFile && Rank(a) > 3 then
      if a.shape[Rank(a) - 1] == 0 then Err(HttpError(ServerError, ProcessingFailure))
      else Ok(LastIndexZero(a))
    else Ok(a)
  }

  /** Lines 151-178: the value range, the slices, and each slice scaled to bytes and encoded. */
  function EncodedFile(a: NdArray<Float>, data: NdArray<Float>, undefinedByte: Byte, base64: seq<Byte> -> string)
    : (r: LoadedFile)
    requires WellFormed(data) && data.flat != []
    ensures |r.data| == if Rank(data) == 3 then data.shape[2] else 1
    ensures r.minValue == MinOf(data.flat) && r.maxValue == MaxOf(data.flat)
    ensures r.dimensions == a.shape[..if Rank(a) < 2 then Rank(a) else 2]
  {
    var lo, hi := MinOf(data.flat), MaxOf(data.flat);
    var slices := SlicesOf(data);
    var encoded := seq(|slices|, i requires 0 <= i < |slices| =>
                         base64(NormalizeSlice(slices[i], lo, hi, undefinedByte).flat));
    LoadedFile(encoded, a.shape[..if Rank(a) < 2 then Rank(a) else 2], lo, hi)
  }

  /**
   * The handler returns a plain dict, which FastAPI renders as JSON with
   * NaN and the infinities refused: a non-finite minimum or maximum raises
   * after the handler has returned, and the server answers a bare 500.
   */
  function Rendered(f: LoadedFile): (r: Result<LoadedFile, HttpError>)
    ensures r.Ok? <==> f.minValue.Num? && f.maxValue.Num?
    ensures r.Ok? ==> r.value == f
    ensures r.Err? ==> r.error == HttpError(ServerError, UnrenderableBody)
  {
    if f.minValue.Num? && f.maxValue.Num? then Ok(f) else Err(HttpError(ServerError, UnrenderableBody))
  }

  const UnrenderableBody := "Internal Server Error"

  /** `load_remote_file`. */
  function LoadReference(path: string, pathExists: string -> bool, isFile: string -> bool,
                         decoded: Option<NdArray<Float>>, undefinedByte: Byte, base64: seq<Byte> -> string)
    : Result<LoadedFile, HttpError>
    requires decoded.Some? ==> WellFormed(decoded.value)
  {
    var p :- CheckedPath(path, pathExists, isFile);
    match decoded
    case None => Err(HttpError(ServerError, ProcessingFailure))
    case Some(a) =>
      var data :- FirstTimePoint(KindOf(LoadExtension(p)), a);
      // `np.min` of an empty array raises.
      if data.flat == [] then Err(HttpError(ServerError, ProcessingFailure))
      else Rendered(EncodedFile(a, data, undefinedByte, base64))
  }

  /** The path checks come first and give 404, 400, 400; nothing after them is a 4xx. */
  lemma LoadErrors(path: string, pathExists: string -> bool, isFile: string -> bool,
                   decoded: Option<NdArray<Float>>, undefinedByte: Byte, base64: seq<Byte> -> string)
    requires decoded.Some? ==> WellFormed(decoded.value)
    ensures var p := LoadPath(path);
      var r := LoadReference(path, pathExists, isFile, decoded, undefinedByte, base64);
      && (!pathExists(p) ==> r == Err(HttpError(NotFound, "File not found: " + p)))
      && (pathExists(p) && !isFile(p) ==> r == Err(HttpError(BadRequest, "Path is not a file")))
      && (pathExists(p) && isFile(p) && !EndsWithAllowed(Lower(p)) ==> r == Err(HttpError(BadRequest, UnsupportedLoad)))
      && (pathExists(p) && isFile(p) && EndsWithAllowed(Lower(p)) && r.Err? ==> r.error.status == ServerError)
      && (pathExists(p) && isFile(p) && EndsWithAllowed(Lower(p)) && decoded.None? ==> r.Err?)
  {
  }

  /**
   * Once the path checks pass and the data is reduced to a non-empty array,
   * the file loads exactly when every value is finite: one encoded slice per
   * axis-2 index of 3-D data and a single one otherwise, with the least and
   * greatest value of the data.  A NaN or an infinity fails the rendering of
   * the response with a bare 500.
   */
  lemma LoadSucceeds(path: string, pathExists: string -> bool, isFile: string -> bool,
                     a: NdArray<Float>, data: NdArray<Float>, undefinedByte: Byte, base64: seq<Byte> -> string)
    requires WellFormed(a)
    requires var p := LoadPath(path); pathExists(p) && isFile(p) && EndsWithAllowed(Lower(p))
    requires FirstTimePoint(KindOf(LoadExtension(LoadPath(path))), a) == Ok(data) && data.flat != []
    ensures var r := LoadReference(path, pathExists, isFile, Some(a), undefinedByte, base64);
      && (r.Ok? <==> forall k | 0 <= k < |data.flat| :: data.flat[k].Num?)
      && (r.Err? ==> r.error == HttpError(ServerError, UnrenderableBody))
      && (r.Ok? ==>
            && r == Ok(EncodedFile(a, data, undefinedByte, base64))
            && |r.value.data| == (if Rank(data) == 3 then data.shape[2] else 1)
            && r.value.minValue == MinOf(data.flat) && r.value.maxValue == MaxOf(data.flat)
            && forall k | 0 <= k < |data.flat| :: r.value.minValue.r <= data.flat[k].r <= r.value.maxValue.r)
  {
    var p := LoadPath(path);
    assert CheckedPath(path, pathExists, isFile) == Ok(p);
    assert LoadReference(path, pathExists, isFile, Some(a), undefinedByte, base64)
        == Rendered(EncodedFile(a, data, undefinedByte, base64));
    RangeFinite(data.flat);
  }

  /**
   * With finite data and a proper range every encoded byte is the floor of
   * `(v - min) / (max - min) * 255`, inside 0..255.
   */
  lemma {:induction false} LoadNormalizes(data: NdArray<Float>, undefinedByte: Byte, i: nat, k: nat)
    requires WellFormed(data) && data.flat != []
    requires forall m | 0 <= m < |data.flat| :: data.flat[m].Num?
    requires MinOf(data.flat).r < MaxOf(data.flat).r
    requires i < |SlicesOf(data)| && k < |SlicesOf(data)[i].flat|
    ensures var lo, hi := MinOf(data.flat), MaxOf(data.flat);
      var v := SlicesOf(data)[i].flat[k];
      var b := NormalizeSlice(SlicesOf(data)[i], lo, hi, undefinedByte).flat[k];
      v.Num? && b == ScaledByte(v.r, lo.r, hi.r) && 0 <= b <= 255
  {
    var lo, hi := MinOf(data.flat), MaxOf(data.flat);
    var s := SlicesOf(data)[i];
    var v := s.flat[k];
    SliceValueInRange(data, i, k);
    NormalizeInRange(v.r, lo.r, hi.r, undefinedByte);
    assert NormalizeSlice(s, lo, hi, undefinedByte).flat[k] == NormalizeElement(v, lo, hi, undefinedByte);
  }

  /** Every value of a slice lies between the data's least and greatest value. */
  lemma {:induction false} SliceValueInRange(data: NdArray<Float>, i: nat, k: nat)
    requires WellFormed(data) && data.flat != []
    requires forall m | 0 <= m < |data.flat| :: data.flat[m].Num?
    requires i < |SlicesOf(data)| && k < |SlicesOf(data)[i].flat|
    ensures SlicesOf(data)[i].flat[k].Num?
    ensures MinOf(data.flat).r <= SlicesOf(data)[i].flat[k].r <= MaxOf(data.flat).r
  {
    var v := SlicesOf(data)[i].flat[k];
    assert v in data.flat;
    var m :| 0 <= m < |data.flat| && data.flat[m] == v;
    assert MinOf(data.flat).r <= data.flat[m].r <= MaxOf(data.flat).r;
  }

  /** The encoding loop of lines 161-167. */
  method EncodeSlices(slices: seq<NdArray<Float>>, lo: Float, hi: Float, undefinedByte: Byte,
                      base64: seq<Byte> -> string)
    returns (encoded: seq<string>)
    ensures |encoded| == |slices|
    ensures forall i | 0 <= i < |slices| :: encoded[i] == base64(NormalizeSlice(slices[i], lo, hi, undefinedByte).flat)
  {
    encoded := [];
    var i := 0;
    while i < |slices|
      invariant 0 <= i <= |slices|
      invariant |encoded| == i
      invariant forall j | 0 <= j < i :: encoded[j] == base64(NormalizeSlice(slices[j], lo, hi, undefinedByte).flat)
    {
      encoded := encoded + [base64(NormalizeSlice(slices[i], lo, hi, undefinedByte).flat)];
      i := i + 1;
    }
  }

  method LoadRemoteFile(path: string, pathExists: string -> bool, isFile: string -> bool,
                        decoded: Option<NdArray<Float>>, undefinedByte: Byte, base64: seq<Byte> -> string)
    returns (r: Result<LoadedFile, HttpError>)
    requires decoded.Some? ==> WellFormed(decoded.value)
    ensures r == LoadReference(path, pathExists, isFile, decoded, undefinedByte, base64)
  {
    var checked := CheckedPath(path, pathExists, isFile);
    if checked.Err? {
      return Err(checked.error);
    }
    var p := checked.value;
    if decoded.None? {
      return Err(HttpError(ServerError, ProcessingFailure));
    }
    var a := decoded.value;
    var reduced := FirstTimePoint(KindOf(LoadExtension(p)), a);
    if reduced.Err? {
      return Err(reduced.error);
    }
    var data := reduced.value;
    if data.flat == [] {
      return Err(HttpError(ServerError, ProcessingFailure));
    }
    var lo, hi := MinOf(data.flat), MaxOf(data.flat);
    var encoded := EncodeSlices(SlicesOf(data), lo, hi, undefinedByte, base64);
    assert encoded == EncodedFile(a, data, undefinedByte, base64).data;
    if !lo.Num? || !hi.Num? {
      return Err(HttpError(ServerError, UnrenderableBody));
    }
    r := Ok(LoadedFile(encoded, a.shape[..if Rank(a) < 2 then Rank(a) else 2], lo, hi));
  }
}
