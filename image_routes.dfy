/**
 * The image routes (app/routes/image.py): the in-memory image store shared
 * with the upload route, slice retrieval, window/level updates, rotation of
 * stored images and the stateless 180-degree rotation of posted slices.
 */
module ImageRoutes {
  import opened Wrappers
  import opened Floats
  import opened Arrays
  import opened Http
  import Windowing

  /** What `data` holds: the uploaded array, or the list of slices a rotation stored. */
  datatype StoredData = Whole(value: NdArray<Float>) | Pieces(items: seq<NdArray<Float>>)

  /** An entry of `normalized_slices`: bytes after windowing, raw values after a rotation. */
  datatype StoredSlice = ByteSlice(bytes: NdArray<Byte>) | FloatSlice(values: NdArray<Float>)

  /** One `image_storage` entry. */
  datatype Record = Record(
    data: StoredData,
    windowWidth: real,
    windowCenter: real,
    totalSlices: nat,
    dataMin: real,
    dataMax: real,
    normalizedSlices: seq<StoredSlice>)

  /**
   * The shapes the routes can leave behind: uploads store arrays of rank 1
   * to 3, rotations store lists of two-dimensional slices.
   */
  ghost predicate DataValid(d: StoredData) {
    match d
    case Whole(a) => WellFormed(a) && 1 <= Rank(a) <= 3
    case Pieces(items) => forall i | 0 <= i < |items| :: IsGrid(items[i])
  }

  ghost predicate RecordValid(r: Record) {
    DataValid(r.data)
  }

  ghost predicate StoreValid(storage: map<string, Record>) {
    forall id | id in storage :: RecordValid(storage[id])
  }

  /** `for slice_data in data`: the axis-0 items of an array, or the stored list. */
  function Slices(d: StoredData): (r: seq<NdArray<Float>>)
    requires DataValid(d)
    ensures forall i | 0 <= i < |r| :: WellFormed(r[i])
    ensures d.Whole? ==> |r| == d.value.shape[0] && forall i | 0 <= i < |r| :: r[i].shape == d.value.shape[1..]
    ensures d.Pieces? ==> r == d.items
  {
    match d
    case Whole(a) => Items(a)
    case Pieces(items) => items
  }

  // ---- update_window_level ----------------------------------------------

  /**
   * An item can be windowed unless it is a NumPy scalar (an item of 1-D
   * data): `np.clip` then returns a 0-dimensional scalar, and the final
   * `normalized[background_mask] = 0` fails because a scalar does not
   * support item assignment.
   */
  predicate Windowable(items: seq<NdArray<Float>>) {
    forall i | 0 <= i < |items| :: Rank(items[i]) >= 1
  }

  function WindowedSlices(items: seq<NdArray<Float>>, center: int, width: int,
                          gamma: real -> real, undefinedByte: Byte): (r: seq<StoredSlice>)
    ensures |r| == |items|
    ensures forall i | 0 <= i < |r| ::
              r[i] == ByteSlice(Windowing.ApplyWindowLevel(items[i], center as real, width as real, gamma, undefinedByte))
  {
    seq(|items|, i requires 0 <= i < |items| =>
      ByteSlice(Windowing.ApplyWindowLevel(items[i], center as real, width as real, gamma, undefinedByte)))
  }

  /** `image_storage[image_id]` after `update_window_level`, or the error it raises. */
  function WindowLevelled(storage: map<string, Record>, imageId: string, center: int, width: int,
                          gamma: real -> real, undefinedByte: Byte): (r: Result<Record, HttpError>)
    requires StoreValid(storage)
    ensures r.Ok? <==> imageId in storage && Windowable(Slices(storage[imageId].data))
    ensures r.Err? ==> r.error.status == ServerError
    ensures r.Ok? ==> RecordValid(r.value) && r.value.data == storage[imageId].data
    ensures r.Ok? ==> r.value.windowCenter == center as real && r.value.windowWidth == width as real
    ensures r.Ok? ==> r.value.totalSlices == storage[imageId].totalSlices
    ensures r.Ok? ==> r.value.dataMin == storage[imageId].dataMin && r.value.dataMax == storage[imageId].dataMax
    ensures r.Ok? ==> r.value.normalizedSlices
                      == WindowedSlices(Slices(storage[imageId].data), center, width, gamma, undefinedByte)
  {
    if imageId !in storage then Err(HttpError(ServerError, "An error occurred while updating window-level"))
    else
      var rec := storage[imageId];
      var items := Slices(rec.data);
      if !Windowable(items) then Err(HttpError(ServerError, "An error occurred while updating window-level"))
      else
        Ok(rec.(normalizedSlices := WindowedSlices(items, center, width, gamma, undefinedByte),
                windowCenter := center as real, windowWidth := width as real))
  }

  /**
   * Window/level of a stored two-dimensional image iterates over its rows:
   * afterwards the slice list holds one windowed row per image row.
   */
  lemma WindowLevelIteratesRows(storage: map<string, Record>, imageId: string, center: int, width: int,
                                gamma: real -> real, undefinedByte: Byte)
    requires StoreValid(storage)
    requires imageId in storage && storage[imageId].data.Whole? && Rank(storage[imageId].data.value) == 2
    ensures var a := storage[imageId].data.value;
            var r := WindowLevelled(storage, imageId, center, width, gamma, undefinedByte);
            && r.Ok?
            && |r.value.normalizedSlices| == a.shape[0]
            && forall i | 0 <= i < a.shape[0] ::
                 r.value.normalizedSlices[i].bytes.shape == [a.shape[1]]
  {
    var a := storage[imageId].data.value;
    var items := Slices(storage[imageId].data);
    assert a.shape[1..] == [a.shape[1]];
    assert Windowable(items);
  }

  /** Updating twice with the same settings is the same as updating once. */
  lemma WindowLevelIdempotent(storage: map<string, Record>, imageId: string, center: int, width: int,
                              gamma: real -> real, undefinedByte: Byte)
    requires StoreValid(storage)
    requires WindowLevelled(storage, imageId, center, width, gamma, undefinedByte).Ok?
    ensures var once := WindowLevelled(storage, imageId, center, width, gamma, undefinedByte).value;
            var updated := storage[imageId := once];
            WindowLevelled(updated, imageId, center, width, gamma, undefinedByte) == Ok(once)
  {
  }

  // ---- rotate_image ------------------------------------------------------

  /** `np.rot90` needs at least two dimensions. */
  predicate Rotatable(items: seq<NdArray<Float>>) {
    forall i | 0 <= i < |items| :: Rank(items[i]) >= 2
  }

  function RotatedItems(items: seq<NdArray<Float>>, k: int): (r: seq<NdArray<Float>>)
    requires forall i | 0 <= i < |items| :: IsGrid(items[i])
    ensures |r| == |items| && forall i | 0 <= i < |r| :: IsGrid(r[i]) && r[i] == Rot90(items[i], k)
  {
    seq(|items|, i requires 0 <= i < |items| => Rot90(items[i], k))
  }

  /** The quarter-turn count `angle // 90`; Dafny's `/` floors for a positive divisor. */
  function QuarterTurns(angle: int): (r: int)
    ensures 90 * r <= angle < 90 * r + 90
  {
    angle / 90
  }

  /** `image_storage[image_id]` after `rotate_image`, or the error it raises. */
  function RotatedRecord(storage: map<string, Record>, imageId: string, angle: int): (r: Result<Record, HttpError>)
    requires StoreValid(storage)
    ensures r.Ok? <==> imageId in storage && Rotatable(Slices(storage[imageId].data))
    ensures r.Err? ==> r.error.status == ServerError
    ensures r.Ok? ==> RecordValid(r.value) && r.value.data.Pieces?
    ensures r.Ok? ==> |r.value.normalizedSlices| == |r.value.data.items|
                      && forall i | 0 <= i < |r.value.data.items| ::
                           r.value.normalizedSlices[i] == FloatSlice(r.value.data.items[i])
    ensures r.Ok? ==> var prev := storage[imageId];
                      && r.value.windowWidth == prev.windowWidth && r.value.windowCenter == prev.windowCenter
                      && r.value.totalSlices == prev.totalSlices
                      && r.value.dataMin == prev.dataMin && r.value.dataMax == prev.dataMax
  {
    if imageId !in storage then Err(HttpError(ServerError, "An error occurred while rotating the image"))
    else
      var rec := storage[imageId];
      var items := Slices(rec.data);
      if !Rotatable(items) then Err(HttpError(ServerError, "An error occurred while rotating the image"))
      else
        assert forall i | 0 <= i < |items| :: IsGrid(items[i]) by {
          forall i | 0 <= i < |items| ensures IsGrid(items[i]) {
            if rec.data.Whole? { assert Rank(items[i]) == Rank(rec.data.value) - 1; }
          }
        }
        var rotated := RotatedItems(items, QuarterTurns(angle));
        Ok(rec.(data := Pieces(rotated), normalizedSlices := seq(|rotated|, i requires 0 <= i < |rotated| => FloatSlice(rotated[i]))))
  }

  lemma RotatedItemsCompose(items: seq<NdArray<Float>>, j: int, k: int)
    requires forall i | 0 <= i < |items| :: IsGrid(items[i])
    ensures RotatedItems(RotatedItems(items, j), k) == RotatedItems(items, j + k)
  {
    forall i | 0 <= i < |items| ensures Rot90(Rot90(items[i], j), k) == Rot90(items[i], j + k) {
      Rot90Compose(items[i], j, k);
    }
  }

  /**
   * Two rotations of a stored image compose: the slices end up turned by the
   * sum of the two quarter-turn counts, and four quarter turns in all give
   * back the slices of the first result.
   */
  lemma RotateTwice(storage: map<string, Record>, imageId: string, a: int, b: int)
    requires StoreValid(storage)
    requires RotatedRecord(storage, imageId, a).Ok?
    ensures var first := RotatedRecord(storage, imageId, a).value;
            var second := RotatedRecord(storage[imageId := first], imageId, b);
            && second.Ok?
            && second.value.data == Pieces(RotatedItems(first.data.items, QuarterTurns(b)))
            && second.value.data.items == RotatedItems(Slices(storage[imageId].data), QuarterTurns(a) + QuarterTurns(b))
            && ((QuarterTurns(a) + QuarterTurns(b)) % 4 == 0 ==> second.value.data.items == Slices(storage[imageId].data))
  {
    var first := RotatedRecord(storage, imageId, a).value;
    var items := Slices(storage[imageId].data);
    RotatedRecordItems(storage, imageId, a);
    var turned := RotatedItems(items, QuarterTurns(a));
    assert Slices(first.data) == turned;
    var s2 := storage[imageId := first];
    assert StoreValid(s2);
    assert Rotatable(turned);
    RotatedRecordItems(s2, imageId, b);
    RotatedItemsCompose(items, QuarterTurns(a), QuarterTurns(b));
  }

  /** A successful rotation stores the turned slices as a list. */
  lemma RotatedRecordItems(storage: map<string, Record>, imageId: string, angle: int)
    requires StoreValid(storage) && RotatedRecord(storage, imageId, angle).Ok?
    ensures forall i | 0 <= i < |Slices(storage[imageId].data)| :: IsGrid(Slices(storage[imageId].data)[i])
    ensures RotatedRecord(storage, imageId, angle).value.data
            == Pieces(RotatedItems(Slices(storage[imageId].data), QuarterTurns(angle)))
  {
    var items := Slices(storage[imageId].data);
    forall i | 0 <= i < |items| ensures IsGrid(items[i]) {
      if storage[imageId].data.Whole? { assert Rank(items[i]) == Rank(storage[imageId].data.value) - 1; }
    }
  }

  /**
   * A stored two-dimensional image with at least one row cannot be rotated:
   * its items are rows, and `np.rot90` of a row fails.
   */
  lemma RotateTwoDimensionalFails(storage: map<string, Record>, imageId: string, angle: int)
    requires StoreValid(storage)
    requires imageId in storage && storage[imageId].data.Whole?
    requires Rank(storage[imageId].data.value) == 2 && storage[imageId].data.value.shape[0] > 0
    ensures RotatedRecord(storage, imageId, angle) == Err(HttpError(ServerError, "An error occurred while rotating the image"))
  {
    var items := Slices(storage[imageId].data);
    assert Rank(items[0]) == 1;
  }

  // ---- get_slice -------------------------------------------------------

  /** `get_slice(slice_number, image_id)`: the data URL of one stored slice. */
  function SliceUrl(storage: map<string, Record>, sliceNumber: int, imageId: string,
                    encodePng: StoredSlice -> Option<string>): (r: Result<string, HttpError>)
    ensures r.Ok? <==> imageId in storage && 0 <= sliceNumber < |storage[imageId].normalizedSlices|
                         && encodePng(storage[imageId].normalizedSlices[sliceNumber]).Some?
    ensures r.Ok? ==> r.value == "data:image/png;base64," + encodePng(storage[imageId].normalizedSlices[sliceNumber]).value
    ensures r.Err? ==> r.error.status == ServerError
  {
    if imageId !in storage then Err(HttpError(ServerError, "An error occurred while retrieving the slice"))
    else
      var slices := storage[imageId].normalizedSlices;
      if sliceNumber < 0 || sliceNumber >= |slices| then Err(HttpError(ServerError, "An error occurred while retrieving the slice"))
      else
        match encodePng(slices[sliceNumber])
        case None => Err(HttpError(ServerError, "An error occurred while retrieving the slice"))
        case Some(png) => Ok("data:image/png;base64," + png)
  }

  // ---- rotate_180 --------------------------------------------------------

  /** The four bytes of one float32, in the order `np.frombuffer` reads them. */
  type Cell = seq<Byte>

  /** The fields of the posted JSON the route reads; None for a missing key. */
  datatype Rotate180Request = Rotate180Request(imageData: Option<seq<string>>, dimensions: Option<seq<int>>)

  datatype Rotate180Failure =
    | MissingImageData    // "image_data" absent
    | MissingDimensions   // "metadata" or its "dimensions" absent
    | BadDimensions       // fewer than two dimensions, or a negative one
    | BadSliceLength      // a slice's bytes are not height * width float32 values
    | NotUtf8             // rotated bytes that do not decode as UTF-8
    | EmptyVolume         // `np.min` of an empty array
    | NonFiniteRange      // a NaN or infinite min or max, which `JSONResponse` refuses to render

  /** The JSON body of a successful rotation. */
  datatype Rotated180 = Rotated180(data: seq<string>, dimensions: seq<nat>, minValue: Float, maxValue: Float)

  /** Groups bytes into n float32 cells. */
  function Cells(b: seq<Byte>, n: nat): (r: seq<Cell>)
    requires |b| == 4 * n
    ensures |r| == n && forall i | 0 <= i < n :: r[i] == b[4 * i..4 * i + 4]
  {
    seq(n, i requires 0 <= i < n => b[4 * i..4 * i + 4])
  }

  /** `tobytes()`: the cells' bytes, concatenated. */
  function Join(cells: seq<Cell>): (r: seq<Byte>)
    ensures (forall i | 0 <= i < |cells| :: |cells[i]| == 4) ==> |r| == 4 * |cells|
  {
    if cells == [] then [] else Join(cells[..|cells| - 1]) + cells[|cells| - 1]
  }

  lemma {:induction false} JoinCells(b: seq<Byte>, n: nat)
    requires |b| == 4 * n
    ensures Join(Cells(b, n)) == b
  {
    if n > 0 {
      var c := Cells(b, n);
      var front := b[..4 * (n - 1)];
      forall i | 0 <= i < n - 1 ensures c[i] == Cells(front, n - 1)[i] {
        assert front[4 * i..4 * i + 4] == b[4 * i..4 * i + 4];
      }
      assert c[..n - 1] == Cells(front, n - 1);
      JoinCells(b[..4 * (n - 1)], n - 1);
      assert b == b[..4 * (n - 1)] + b[4 * (n - 1)..];
    }
  }

  lemma {:induction false} JoinPrefix(cells: seq<Cell>, i: nat)
    requires forall k | 0 <= k < |cells| :: |cells[k]| == 4
    requires i < |cells|
    ensures |Join(cells)| == 4 * |cells| && Join(cells)[4 * i..4 * i + 4] == cells[i]
  {
    var n := |cells|;
    var front := cells[..n - 1];
    assert |Join(front)| == 4 * (n - 1);
    if i < n - 1 {
      JoinPrefix(front, i);
      assert Join(cells)[4 * i..4 * i + 4] == Join(front)[4 * i..4 * i + 4];
    } else {
      assert Join(cells)[4 * i..] == cells[i];
    }
  }

  lemma CellsJoin(cells: seq<Cell>)
    requires forall k | 0 <= k < |cells| :: |cells[k]| == 4
    ensures |Join(cells)| == 4 * |cells| && Cells(Join(cells), |cells|) == cells
  {
    forall i | 0 <= i < |cells| ensures Cells(Join(cells), |cells|)[i] == cells[i] {
      JoinPrefix(cells, i);
    }
  }

  /** `np.frombuffer(s.encode('utf-8'), np.float32).reshape((height, width))`. */
  function DecodeSlice(s: string, height: nat, width: nat, utf8Encode: string -> seq<Byte>): (r: Option<NdArray<Cell>>)
    ensures r.Some? <==> |utf8Encode(s)| == 4 * (height * width)
    ensures r.Some? ==> IsGrid(r.value) && r.value.shape == [height, width]
                        && r.value.flat == Cells(utf8Encode(s), height * width)
  {
    var b := utf8Encode(s);
    if |b| == 4 * (height * width) then
      ProductOfTwo(height, width);
      Some(NdArray([height, width], Cells(b, height * width)))
    else None
  }

  /** The decode loop: the first slice of the wrong length fails the request. */
  function DecodeVolume(slices: seq<string>, height: nat, width: nat, utf8Encode: string -> seq<Byte>)
    : (r: Result<seq<NdArray<Cell>>, Rotate180Failure>)
    ensures r.Ok? <==> forall z | 0 <= z < |slices| :: DecodeSlice(slices[z], height, width, utf8Encode).Some?
    ensures r.Ok? ==> |r.value| == |slices|
    ensures r.Ok? ==> forall z | 0 <= z < |slices| :: r.value[z] == DecodeSlice(slices[z], height, width, utf8Encode).value
    ensures r.Err? ==> r.error == BadSliceLength
  {
    if slices == [] then Ok([])
    else
      var front := DecodeVolume(slices[..|slices| - 1], height, width, utf8Encode);
      var last := DecodeSlice(slices[|slices| - 1], height, width, utf8Encode);
      if front.Err? then Err(BadSliceLength)
      else if last.None? then Err(BadSliceLength)
      else Ok(front.value + [last.value])
  }

  /** `rotated_array[z].tobytes().decode('utf-8')`. */
  function EncodeSlice(g: NdArray<Cell>, utf8Decode: seq<Byte> -> Option<string>): Option<string> {
    utf8Decode(Join(g.flat))
  }

  /** The encode loop: the first slice whose bytes are not UTF-8 fails the request. */
  function EncodeVolume(volume: seq<NdArray<Cell>>, utf8Decode: seq<Byte> -> Option<string>)
    : (r: Result<seq<string>, Rotate180Failure>)
    ensures r.Ok? <==> forall z | 0 <= z < |volume| :: EncodeSlice(volume[z], utf8Decode).Some?
    ensures r.Ok? ==> |r.value| == |volume|
    ensures r.Ok? ==> forall z | 0 <= z < |volume| :: r.value[z] == EncodeSlice(volume[z], utf8Decode).value
    ensures r.Err? ==> r.error == NotUtf8
  {
    if volume == [] then Ok([])
    else
      var front := EncodeVolume(volume[..|volume| - 1], utf8Decode);
      var last := EncodeSlice(volume[|volume| - 1], utf8Decode);
      if front.Err? then Err(NotUtf8)
      else if last.None? then Err(NotUtf8)
      else Ok(front.value + [last.value])
  }

  /** `np.rot90(image_array, k=2, axes=(1, 2))`: every slice turned half round. */
  function HalfTurnSlices(volume: seq<NdArray<Cell>>): (r: seq<NdArray<Cell>>)
    requires forall z | 0 <= z < |volume| :: IsGrid(volume[z])
    ensures |r| == |volume| && forall z | 0 <= z < |r| :: IsGrid(r[z]) && r[z] == HalfTurn(volume[z])
  {
    seq(|volume|, z requires 0 <= z < |volume| => HalfTurn(volume[z]))
  }

  /** The float32 values of a volume, slice after slice in row-major order. */
  function VolumeValues(volume: seq<NdArray<Cell>>, float32Of: Cell -> Float): (r: seq<Float>)
  {
    if volume == [] then []
    else
      var g := volume[|volume| - 1];
      VolumeValues(volume[..|volume| - 1], float32Of) + seq(|g.flat|, i requires 0 <= i < |g.flat| => float32Of(g.flat[i]))
  }

  /** What `rotate_180` answers for a request; every failure is a 500 response. */
  function Rotate180Reference(req: Rotate180Request, utf8Encode: string -> seq<Byte>,
                              utf8Decode: seq<Byte> -> Option<string>, float32Of: Cell -> Float)
    : (r: Result<Rotated180, Rotate180Failure>)
  {
    if req.imageData.None? then Err(MissingImageData)
    else if req.dimensions.None? then Err(MissingDimensions)
    else
      var dims := req.dimensions.value;
      if |dims| < 2 || dims[0] < 0 || dims[1] < 0 then Err(BadDimensions)
      else
        var width, height := dims[0], dims[1];
        var volume :- DecodeVolume(req.imageData.value, height, width, utf8Encode);
        var rotated := HalfTurnSlices(volume);
        var out :- EncodeVolume(rotated, utf8Decode);
        var values := VolumeValues(rotated, float32Of);
        if |values| == 0 then Err(EmptyVolume)
        else if !MinOf(values).Num? || !MaxOf(values).Num? then Err(NonFiniteRange)
        else Ok(Rotated180(out, [|volume|, height, width], MinOf(values), MaxOf(values)))
  }

  /** The decode loop of `rotate_180`. */
  method DecodeSlices(slices: seq<string>, height: nat, width: nat, utf8Encode: string -> seq<Byte>)
    returns (r: Result<seq<NdArray<Cell>>, Rotate180Failure>)
    ensures r == DecodeVolume(slices, height, width, utf8Encode)
  {
    var volume: seq<NdArray<Cell>> := [];
    var z := 0;
    while z < |slices|
      invariant 0 <= z <= |slices|
      invariant DecodeVolume(slices[..z], height, width, utf8Encode) == Ok(volume)
    {
      var g := DecodeSlice(slices[z], height, width, utf8Encode);
      assert slices[..z + 1][..z] == slices[..z];
      if g.None? {
        assert DecodeVolume(slices, height, width, utf8Encode).Err?;
        return Err(BadSliceLength);
      }
      volume := volume + [g.value];
      z := z + 1;
    }
    assert slices[..|slices|] == slices;
    return Ok(volume);
  }

  /** The encode loop of `rotate_180`. */
  method EncodeSlices(volume: seq<NdArray<Cell>>, utf8Decode: seq<Byte> -> Option<string>)
    returns (r: Result<seq<string>, Rotate180Failure>)
    ensures r == EncodeVolume(volume, utf8Decode)
  {
    var out: seq<string> := [];
    var z := 0;
    while z < |volume|
      invariant 0 <= z <= |volume|
      invariant EncodeVolume(volume[..z], utf8Decode) == Ok(out)
    {
      var s := EncodeSlice(volume[z], utf8Decode);
      assert volume[..z + 1][..z] == volume[..z];
      if s.None? {
        assert EncodeVolume(volume, utf8Decode).Err?;
        return Err(NotUtf8);
      }
      out := out + [s.value];
      z := z + 1;
    }
    assert volume[..|volume|] == volume;
    return Ok(out);
  }

  /** `rotate_180(request_data)`. */
  method Rotate180(req: Rotate180Request, utf8Encode: string -> seq<Byte>,
                   utf8Decode: seq<Byte> -> Option<string>, float32Of: Cell -> Float)
    returns (r: Result<Rotated180, Rotate180Failure>)
    ensures r == Rotate180Reference(req, utf8Encode, utf8Decode, float32Of)
  {
    if req.imageData.None? {
      return Err(MissingImageData);
    }
    if req.dimensions.None? {
      return Err(MissingDimensions);
    }
    var dims := req.dimensions.value;
    if |dims| < 2 || dims[0] < 0 || dims[1] < 0 {
      return Err(BadDimensions);
    }
    var width: nat, height: nat := dims[0], dims[1];
    var volume := DecodeSlices(req.imageData.value, height, width, utf8Encode);
    if volume.Err? {
      return Err(volume.error);
    }
    var rotated := HalfTurnSlices(volume.value);
    var out := EncodeSlices(rotated, utf8Decode);
    if out.Err? {
      return Err(out.error);
    }
    var values := VolumeValues(rotated, float32Of);
    if |values| == 0 {
      return Err(EmptyVolume);
    }
    if !MinOf(values).Num? || !MaxOf(values).Num? {
      return Err(NonFiniteRange);
    }
    return Ok(Rotated180(out.value, [|volume.value|, height, width], MinOf(values), MaxOf(values)));
  }

  /**
   * The posted "dimensions" list as `np.zeros` needs it; the shape of the
   * response is depth, then height, then width.
   */
  lemma Rotate180Shape(req: Rotate180Request, utf8Encode: string -> seq<Byte>,
                       utf8Decode: seq<Byte> -> Option<string>, float32Of: Cell -> Float)
    requires Rotate180Reference(req, utf8Encode, utf8Decode, float32Of).Ok?
    ensures var out := Rotate180Reference(req, utf8Encode, utf8Decode, float32Of).value;
            && req.imageData.Some? && req.dimensions.Some? && |req.dimensions.value| >= 2
            && out.dimensions == [|req.imageData.value|, req.dimensions.value[1], req.dimensions.value[0]]
            && |out.data| == |req.imageData.value|
  {
  }

  /**
   * Once the slices decode and encode, the rotation succeeds exactly when
   * every rotated value is finite; a NaN or an infinity makes the response
   * unrenderable, and the route answers 500.  A success reports the least and
   * greatest value.
   */
  lemma Rotate180Range(req: Rotate180Request, utf8Encode: string -> seq<Byte>,
                       utf8Decode: seq<Byte> -> Option<string>, float32Of: Cell -> Float,
                       volume: seq<NdArray<Cell>>)
    requires req.imageData.Some? && req.dimensions.Some? && |req.dimensions.value| >= 2
    requires req.dimensions.value[0] >= 0 && req.dimensions.value[1] >= 0
    requires DecodeVolume(req.imageData.value, req.dimensions.value[1], req.dimensions.value[0], utf8Encode) == Ok(volume)
    requires EncodeVolume(HalfTurnSlices(volume), utf8Decode).Ok?
    requires |VolumeValues(HalfTurnSlices(volume), float32Of)| > 0
    ensures var values := VolumeValues(HalfTurnSlices(volume), float32Of);
            var r := Rotate180Reference(req, utf8Encode, utf8Decode, float32Of);
            && (r.Ok? <==> forall i | 0 <= i < |values| :: values[i].Num?)
            && (r.Err? ==> r.error == NonFiniteRange)
            && (r.Ok? ==> forall i | 0 <= i < |values| :: r.value.minValue.r <= values[i].r <= r.value.maxValue.r)
  {
    RangeFinite(VolumeValues(HalfTurnSlices(volume), float32Of));
  }

  /** UTF-8 encoding and decoding undo each other. */
  ghost predicate Utf8RoundTrip(utf8Encode: string -> seq<Byte>, utf8Decode: seq<Byte> -> Option<string>) {
    && (forall s :: utf8Decode(utf8Encode(s)) == Some(s))
    && (forall b | utf8Decode(b).Some? :: utf8Encode(utf8Decode(b).value) == b)
  }

  lemma SliceTwice(s: string, height: nat, width: nat, utf8Encode: string -> seq<Byte>,
                   utf8Decode: seq<Byte> -> Option<string>)
    requires Utf8RoundTrip(utf8Encode, utf8Decode)
    requires DecodeSlice(s, height, width, utf8Encode).Some?
    requires EncodeSlice(HalfTurn(DecodeSlice(s, height, width, utf8Encode).value), utf8Decode).Some?
    ensures var g := DecodeSlice(s, height, width, utf8Encode).value;
            var t := EncodeSlice(HalfTurn(g), utf8Decode).value;
            && DecodeSlice(t, height, width, utf8Encode) == Some(HalfTurn(g))
            && EncodeSlice(HalfTurn(HalfTurn(g)), utf8Decode) == Some(s)
  {
    var g := DecodeSlice(s, height, width, utf8Encode).value;
    var h := HalfTurn(g);
    var t := EncodeSlice(h, utf8Decode).value;
    GridSize(h);
    assert forall k | 0 <= k < |h.flat| :: |h.flat[k]| == 4 by {
      HalfTurnReverses(g);
    }
    assert utf8Encode(t) == Join(h.flat);
    CellsJoin(h.flat);
    assert h.shape == [height, width];
    AtHalfHalf(g);
    JoinCells(utf8Encode(s), height * width);
  }

  /** A half turn of every slice keeps the volume's values, each as often. */
  lemma {:induction false} HalfTurnKeepsValues(volume: seq<NdArray<Cell>>, float32Of: Cell -> Float)
    requires forall z | 0 <= z < |volume| :: IsGrid(volume[z])
    ensures multiset(VolumeValues(HalfTurnSlices(volume), float32Of)) == multiset(VolumeValues(volume, float32Of))
  {
    if volume != [] {
      var n := |volume|;
      var front := volume[..n - 1];
      var turned := HalfTurnSlices(volume);
      assert turned[..n - 1] == HalfTurnSlices(front);
      HalfTurnKeepsValues(front, float32Of);
      var g := volume[n - 1];
      var h := turned[n - 1];
      HalfTurnReverses(g);
      var m := seq(|g.flat|, i requires 0 <= i < |g.flat| => float32Of(g.flat[i]));
      var mh := seq(|h.flat|, i requires 0 <= i < |h.flat| => float32Of(h.flat[i]));
      assert mh == Reverse(m);
      ReversePermutes(m);
    }
  }

  /** Two half turns of every slice give the volume back. */
  lemma HalfTurnSlicesTwice(volume: seq<NdArray<Cell>>)
    requires forall z | 0 <= z < |volume| :: IsGrid(volume[z])
    ensures HalfTurnSlices(HalfTurnSlices(volume)) == volume
  {
    forall z | 0 <= z < |volume| ensures HalfTurnSlices(HalfTurnSlices(volume))[z] == volume[z] {
      AtHalfHalf(volume[z]);
    }
  }

  /**
   * Posting a successful answer's slices back with the same dimensions
   * succeeds and gives back the slices first posted: two half turns cancel,
   * the values (hence the finite range) are the same, as long as UTF-8
   * encoding and decoding undo each other.
   */
  lemma Rotate180Twice(req: Rotate180Request, utf8Encode: string -> seq<Byte>,
                       utf8Decode: seq<Byte> -> Option<string>, float32Of: Cell -> Float)
    requires Utf8RoundTrip(utf8Encode, utf8Decode)
    requires Rotate180Reference(req, utf8Encode, utf8Decode, float32Of).Ok?
    ensures var out := Rotate180Reference(req, utf8Encode, utf8Decode, float32Of).value;
            var again := Rotate180Reference(Rotate180Request(Some(out.data), req.dimensions), utf8Encode, utf8Decode, float32Of);
            && again.Ok?
            && again.value.data == req.imageData.value
            && again.value.dimensions == out.dimensions
  {
    var slices := req.imageData.value;
    var dims := req.dimensions.value;
    var width, height := dims[0], dims[1];
    Rotate180Unfold(req, utf8Encode, utf8Decode, float32Of);
    var volume := DecodeVolume(slices, height, width, utf8Encode).value;
    var rotated := HalfTurnSlices(volume);
    var out := EncodeVolume(rotated, utf8Decode).value;
    forall z | 0 <= z < |slices|
      ensures DecodeSlice(out[z], height, width, utf8Encode) == Some(rotated[z])
      ensures EncodeSlice(HalfTurn(rotated[z]), utf8Decode) == Some(slices[z])
    {
      SliceTwice(slices[z], height, width, utf8Encode, utf8Decode);
    }
    DecodeAll(out, rotated, height, width, utf8Encode);
    EncodeAll(HalfTurnSlices(rotated), slices, utf8Decode);
    var values := VolumeValues(rotated, float32Of);
    var values2 := VolumeValues(HalfTurnSlices(rotated), float32Of);
    RangeFinite(values);
    HalfTurnKeepsValues(rotated, float32Of);
    assert |values2| == |values| by {
      assert |multiset(values2)| == |multiset(values)|;
    }
    forall i | 0 <= i < |values2| ensures values2[i].Num? {
      assert values2[i] in multiset(values);
    }
    RangeFinite(values2);
  }

  /** A successful answer's slices are the decoded slices, half-turned and encoded. */
  lemma Rotate180Unfold(req: Rotate180Request, utf8Encode: string -> seq<Byte>,
                        utf8Decode: seq<Byte> -> Option<string>, float32Of: Cell -> Float)
    requires Rotate180Reference(req, utf8Encode, utf8Decode, float32Of).Ok?
    ensures req.imageData.Some? && req.dimensions.Some? && |req.dimensions.value| >= 2
    ensures req.dimensions.value[0] >= 0 && req.dimensions.value[1] >= 0
    ensures var volume := DecodeVolume(req.imageData.value, req.dimensions.value[1], req.dimensions.value[0], utf8Encode);
            && volume.Ok?
            && EncodeVolume(HalfTurnSlices(volume.value), utf8Decode).Ok?
            && Rotate180Reference(req, utf8Encode, utf8Decode, float32Of).value.data
               == EncodeVolume(HalfTurnSlices(volume.value), utf8Decode).value
  {
  }

  lemma DecodeAll(slices: seq<string>, volume: seq<NdArray<Cell>>, height: nat, width: nat,
                  utf8Encode: string -> seq<Byte>)
    requires |slices| == |volume|
    requires forall z | 0 <= z < |slices| :: DecodeSlice(slices[z], height, width, utf8Encode) == Some(volume[z])
    ensures DecodeVolume(slices, height, width, utf8Encode) == Ok(volume)
  {
    var r := DecodeVolume(slices, height, width, utf8Encode);
    assert r.Ok?;
    assert r.value == volume;
  }

  lemma EncodeAll(volume: seq<NdArray<Cell>>, slices: seq<string>, utf8Decode: seq<Byte> -> Option<string>)
    requires |slices| == |volume|
    requires forall z | 0 <= z < |volume| :: EncodeSlice(volume[z], utf8Decode) == Some(slices[z])
    ensures EncodeVolume(volume, utf8Decode) == Ok(slices)
  {
    var r := EncodeVolume(volume, utf8Decode);
    assert r.Ok?;
    assert r.value == slices;
  }

  // ---- the store ---------------------------------------------------------

  /** `image_storage`: the module-level dictionary from image id to record. */
  class ImageStore {
    var storage: map<string, Record>

    ghost predicate Valid()
      reads this
    {
      StoreValid(storage)
    }

    constructor()
      ensures storage == map[] && Valid()
    {
      storage := map[];
    }

    /** `image_storage[image_id] = record`. */
    method Put(imageId: string, rec: Record)
      requires Valid() && RecordValid(rec)
      modifies this
      ensures Valid()
      ensures storage == old(storage)[imageId := rec]
    {
      storage := storage[imageId := rec];
    }

    method GetSlice(sliceNumber: int, imageId: string, encodePng: StoredSlice -> Option<string>)
      returns (r: Result<string, HttpError>)
      ensures r == SliceUrl(storage, sliceNumber, imageId, encodePng)
    {
      if imageId !in storage {
        return Err(HttpError(ServerError, "An error occurred while retrieving the slice"));
      }
      var slices := storage[imageId].normalizedSlices;
      if sliceNumber < 0 || sliceNumber >= |slices| {
        return Err(HttpError(ServerError, "An error occurred while retrieving the slice"));
      }
      var png := encodePng(slices[sliceNumber]);
      if png.None? {
        return Err(HttpError(ServerError, "An error occurred while retrieving the slice"));
      }
      return Ok("data:image/png;base64," + png.value);
    }

    /** `update_window_level(image_id, window_center, window_width)`. */
    method UpdateWindowLevel(imageId: string, center: int, width: int, gamma: real -> real, undefinedByte: Byte)
      returns (r: Result<(), HttpError>)
      requires Valid()
      modifies this
      ensures Valid()
      ensures var w := WindowLevelled(old(storage), imageId, center, width, gamma, undefinedByte);
              && (r.Ok? <==> w.Ok?)
              && (w.Ok? ==> storage == old(storage)[imageId := w.value])
              && (w.Err? ==> storage == old(storage) && r == Err(w.error))
    {
      if imageId !in storage {
        return Err(HttpError(ServerError, "An error occurred while updating window-level"));
      }
      var rec := storage[imageId];
      var items := Slices(rec.data);
      var updated: seq<StoredSlice> := [];
      var i := 0;
      while i < |items|
        invariant 0 <= i <= |items|
        invariant |updated| == i
        invariant forall j | 0 <= j < i :: Rank(items[j]) >= 1
        invariant forall j | 0 <= j < i ::
                    updated[j] == ByteSlice(Windowing.ApplyWindowLevel(items[j], center as real, width as real, gamma, undefinedByte))
      {
        if Rank(items[i]) == 0 {
          return Err(HttpError(ServerError, "An error occurred while updating window-level"));
        }
        updated := updated + [ByteSlice(Windowing.ApplyWindowLevel(items[i], center as real, width as real, gamma, undefinedByte))];
        i := i + 1;
      }
      assert updated == WindowedSlices(items, center, width, gamma, undefinedByte);
      storage := storage[imageId := rec.(normalizedSlices := updated, windowCenter := center as real, windowWidth := width as real)];
      return Ok(());
    }

    /** `rotate_image(image_id, angle)`. */
    method RotateImage(imageId: string, angle: int) returns (r: Result<(), HttpError>)
      requires Valid()
      modifies this
      ensures Valid()
      ensures var t := RotatedRecord(old(storage), imageId, angle);
              && (r.Ok? <==> t.Ok?)
              && (t.Ok? ==> storage == old(storage)[imageId := t.value])
              && (t.Err? ==> storage == old(storage) && r == Err(t.error))
    {
      if imageId !in storage {
        return Err(HttpError(ServerError, "An error occurred while rotating the image"));
      }
      var rec := storage[imageId];
      var items := Slices(rec.data);
      var k := angle / 90;
      var rotated: seq<NdArray<Float>> := [];
      var i := 0;
      while i < |items|
        invariant 0 <= i <= |items|
        invariant |rotated| == i
        invariant forall j | 0 <= j < i :: IsGrid(items[j]) && rotated[j] == Rot90(items[j], k)
      {
        if Rank(items[i]) < 2 {
          return Err(HttpError(ServerError, "An error occurred while rotating the image"));
        }
        if rec.data.Whole? { assert Rank(items[i]) == Rank(rec.data.value) - 1; }
        rotated := rotated + [Rot90(items[i], k)];
        i := i + 1;
      }
      assert rotated == RotatedItems(items, QuarterTurns(angle));
      var slices := seq(|rotated|, j requires 0 <= j < |rotated| => FloatSlice(rotated[j]));
      storage := storage[imageId := rec.(data := Pieces(rotated), normalizedSlices := slices)];
      return Ok(());
    }
  }
}
