# ImageAnalyzer, modelled in Dafny

ImageAnalyzer is a medical image viewer. A FastAPI server accepts NIfTI,
DICOM and ordinary image uploads. It picks a display window from the
intensity percentiles, maps each slice to 8-bit pixels, and keeps the
result in an in-memory store. It also serves directory listings and raw
slices from an `images` folder, and rotates stored or posted images.

The browser viewer (`viewer.js`) shows the slices. Dragging adjusts the
window, the wheel moves between slices, and two buttons turn the image.
The viewer also saves its state and hands it on when the grid layout
changes.

A few older helpers sit beside the server:
- integer window/level code;
- metadata extraction;
- distance and polygon-area measurements;
- a script that draws two test images.

The model has one module per source file. Four helper modules sit beside them:
- `Floats`: NumPy values over exact reals, with the infinities and NaN;
- `Arrays`: arrays as a shape and a row-major element sequence, with the NumPy views and reshapes the code uses;
- `Text`: the Python and JavaScript string methods;
- `Wrappers`: `Option` and `Result`.

The modules split into two kinds:
- **Functions.** Pure code is modelled as functions, each paired with lemmas.
- **Classes and methods.** Code that changes state in place is modelled this way:
  - the viewer's `ImageViewer` and `GridManager`;
  - the server's `image_storage` dictionary (`ImageRoutes.ImageStore`);
  - the route loops;
  - the test-image script, which works on a 512×512 `array2`.

  Each method is proved to agree with a reference function. That function's properties are lemmas.

What the libraries return is passed in as a parameter:
- file decoding (nibabel, pydicom, Pillow);
- PNG and base64 encoding;
- UTF-8 conversion;
- the file system;
- `uuid`.

Several NumPy behaviours are also parameters:
- The contrast curve `np.power(v / 255, 0.9) * 255` is the parameter `gamma`.
- The byte that a NaN or out-of-range value becomes under `astype(np.uint8)` is the parameter `undefinedByte`.

Several behaviours that the code has, perhaps not by design, are modelled as written:
- **Auto-window.** Line 19 of `app/utils/image_processing.py` flattens the data with a boolean mask. So the 2-D and 3-D central crops never happen, and the auto-window uses every finite value.
- **Slices below the window.** Pixels below the window have a negative base in `np.power`. They therefore reach the uint8 cast as NaN, not as 0. A −inf pixel, or a pixel away from the centre of a width-0 window, has an infinite base, which `np.power` makes +inf, so it comes out 255.
- **Non-finite data.** A NaN or an infinity in the data makes the minimum or maximum non-finite. The JSON encoder then refuses the directory route's and the rotate route's answers, and both routes answer 500.
- **Double upload.** The viewer registers two "change" listeners on its file input, so each file selection uploads the file twice.
- **`app/routes/image.py` errors.** Every error, including "not found", is reported as 500, because the handler's `except Exception` also catches the route's own `HTTPException`.
- **`.nii.gz` in the upload route.** The suffix is `.nii.gz`, which matches neither `.nii` nor `.gz`, so the file goes to Pillow. The directory route reads the same name with nibabel. `process_file` refuses it with extension "gz".
- **`app.py`.** It accepts any `.gz` name and refuses `.jpeg`. Every refusal ends as the same 500 body.
- **Viewer rotation.** `rotation` is never initialised, so the first turn makes it NaN, and no viewer ever holds a numeric rotation. `TurnStaysQuarter`, `LeftThenRight` and `LeftThenRightFromMinus270` describe the turn arithmetic as it would be had `rotation` been initialised to a number: from −270, for instance, a left then a right turn would give 90.
- **Viewer mode menu.** The two mode items throw on the missing ROI canvas after they set the mode and the button classes.
- **Grey-and-alpha uploads.** A two-channel Pillow upload reports `total_slices` 1 but sends two slices.
- **Directory listing path.** Only the `images` prefix is checked, so `images/..` paths are kept.
- **Directory listing errors.** The outer `except Exception` of `list_directory` also catches the inner `HTTPException`, so a failed listing reports "Error in list_directory: 500: Error listing directory contents: …".

## Model

| member | source | states |
|---|---|---|
| Viewer.ImageViewer.constructor | app/static/js/viewer.js:4-37 | the new viewer's fields are `Restore(state)`: the saved centre, width, slice, count, id and label, or 128 / 255 / 0 / 0 / null / "" without a state; `has-image` exactly when the saved id is truthy |
| Viewer.RestoreDefaults | app/static/js/viewer.js:9-16 | without a saved state the viewer starts at centre 128, width 255, slice 0 of 0, no id, empty label, no image, no drag |
| Viewer.RestoreRoundTrip | app/static/js/viewer.js:9-16 | restoring from `getState()` keeps centre, width, slice, count, id and label; rotation, bit depth, data range and slices come back unset; the image flag returns exactly when the id is truthy |
| Viewer.ImageViewer.OnMouseDown | app/static/js/viewer.js:149-155 | the fields move as `Step` says for a press: a left button starts the drag at the pointer, other buttons change nothing |
| Viewer.ImageViewer.OnMouseMove | app/static/js/viewer.js:157-173 | the fields move as `Step` says for a move |
| Viewer.ImageViewer.OnMouseUp | app/static/js/viewer.js:175-177 | the drag flag is cleared and nothing else changes |
| Viewer.ImageViewer.OnMouseLeave | app/static/js/viewer.js:179-181 | the drag flag is cleared and nothing else changes |
| Viewer.DragStartsAndEnds | app/static/js/viewer.js:149-181 | a left press starts a drag at (x, y), other buttons leave the view unchanged, release and leave end the drag and change nothing else |
| Viewer.MoveAdjustsWindow | app/static/js/viewer.js:157-173 | during a drag the width becomes max(1, width + dx), the centre grows by the upward motion, both reach the shader and the pointer is recorded; without a drag a move changes nothing |
| Viewer.PressThenMove | app/static/js/viewer.js:149-173 | a press at (x0, y0) then a move to (x1, y1) sets width max(1, w + x1 − x0) and centre c + y0 − y1 |
| Viewer.WidthStaysPositive | app/static/js/viewer.js:162 | no event takes the window width, or the shader's width, below 1 once it is at least 1 |
| Viewer.ImageViewer.OnWheel | app/static/js/viewer.js:291-307 | the fields move as `Step` says for the wheel |
| Viewer.WheelMovesOneSlice | app/static/js/viewer.js:291-307 | without an image or with at most one slice the wheel does nothing; a negative delta goes to min(slice + 1, total − 1), any other delta to max(slice − 1, 0) |
| Viewer.SliceStaysInRange | app/static/js/viewer.js:291-307 | every event keeps the current slice in [0, totalSlices) |
| Viewer.ImageViewer.OnRotateLeft | app/static/js/viewer.js:196-202 | the fields move as `Step` says for a left turn (the button and the menu item of lines 248-253) |
| Viewer.ImageViewer.OnRotateRight | app/static/js/viewer.js:204-210 | the fields move as `Step` says for a right turn (the button and the menu item of lines 254-259) |
| Viewer.JsRem | app/static/js/viewer.js:199 | JavaScript's `%`: the result lies strictly between −n and n and takes the dividend's sign |
| Viewer.JsRemCongruent | app/static/js/viewer.js:199 | the truncating remainder differs from its dividend by a multiple of 360 |
| Viewer.TurnStaysQuarter | app/static/js/viewer.js:196-210 | from a multiple of 90 in (−360, 360), a turn gives another such angle |
| Viewer.LeftThenRight | app/static/js/viewer.js:196-210 | a left then a right turn returns to the same angle modulo 360 |
| Viewer.LeftThenRightFromMinus270 | app/static/js/viewer.js:196-210 | from −270 a left then a right turn lands on 90, not −270 |
| Viewer.RotationBecomesNaN | app/static/js/viewer.js:4-16 | the never-initialised rotation becomes NaN at the first turn and stays NaN |
| Viewer.ImageViewer.OnOptimizeWindow | app/static/js/viewer.js:260-268 | with an image: mode "roi", the optimize button active and the window-level button not; then the throw ends the handler |
| Viewer.ImageViewer.OnWindowLevel | app/static/js/viewer.js:269-277 | with an image: mode "window-level", the window-level button active and the optimize button not; then the throw ends the handler |
| Viewer.ModeButtonsExclusive | app/static/js/viewer.js:248-277 | turns and mode items do nothing without an image; each mode item selects its mode and leaves only its own button active |
| Viewer.ButtonsNeverBothActive | app/static/js/viewer.js:260-277 | no event leaves both mode buttons active once at most one is |
| Viewer.WindowTransform | app/static/js/viewer.js:108-121 | the shader output lies in [0, 1]: 0 at or below the lower edge, 1 at or above the upper edge |
| Viewer.WindowTransformMonotone | app/static/js/viewer.js:108-121 | the transform is monotone, and inside a positive window it equals (v − (c − w/2)) / w |
| Viewer.ImageViewer.LoadSlice | app/static/js/viewer.js:310-312 | with slices present it selects the given slice; otherwise nothing changes |
| Viewer.InfoTextDetermines | app/static/js/viewer.js:331-335 | the info line determines the rounded centre and width, the current slice and the slice count |
| Viewer.BitDepthOf | app/static/js/viewer.js:371 | `data.bit_depth \|\| 8`: a positive depth is kept, a missing or zero one becomes 8 |
| Viewer.ImageViewer.UploadFile | app/static/js/viewer.js:337-388 | the fields become `Install(old, outcome)` and the error shown is `UploadError(outcome)` |
| Viewer.ImageViewer.OnFileSelected | app/static/js/viewer.js:188-193 | a file selection runs both "change" listeners (also lines 283-288), so the fields become the two uploads' `Install` in the order the replies are handled, and both errors are shown |
| Viewer.ImageViewer.InstallReply | app/static/js/viewer.js:362-375 | the success branch installs the reply as `Installed` says |
| Viewer.UploadInstalls | app/static/js/viewer.js:362-375 | a reply with status "success" and non-empty slices installs slices, count, id, width, centre and data range, selects slice 0, sets maxValue = 2^bitDepth − 1 (255 by default) and sets the image flag; rotation, mode and shader uniforms stay |
| Viewer.UploadError | app/static/js/viewer.js:379-387 | an error is shown exactly when the upload did not succeed |
| Viewer.UploadFailureKeepsState | app/static/js/viewer.js:379-387 | a failed or thrown upload changes no field; the message is the server's, "Failed to process image", or "Upload failed: " followed by the reason |
| Viewer.LaterUploadWins | app/static/js/viewer.js:188-193 | of the two uploads of one selection, a successful later reply leaves the viewer as that reply alone would; a failed later reply keeps what the earlier one installed |
| Viewer.SavedStates | app/static/js/viewer.js:472 | one saved state per viewer, each that viewer's `getState()` |
| Viewer.StateFor | app/static/js/viewer.js:492 | cell i gets saved state i when there is one, null otherwise |
| Viewer.CellCountOfLayout | app/static/js/viewer.js:468-469 | the layout "RxC" with digit strings R and C gives R·C cells |
| Viewer.GridCarriesStates | app/static/js/viewer.js:467-494 | a new cell i shows old viewer i's centre, width, slice, count, id and label when i is below the old count, the defaults otherwise |
| Viewer.GridManager.constructor | app/static/js/viewer.js:456-461 | a new grid manager has no viewers |
| Viewer.GridManager.UpdateGrid | app/static/js/viewer.js:467-494 | after a re-layout there are `CellCount(layout)` viewers, each constructed from `StateFor` of the old viewers' saved states |
| Windowing.Sort | app/utils/image_processing.py:61-62 | the values that `np.percentile` interpolates between, sorted and a permutation of the input |
| Windowing.SortedUnique | app/utils/image_processing.py:61-62 | a sorted sequence is determined by its multiset, so the percentiles ignore input order |
| Windowing.Percentile | app/utils/image_processing.py:61-62 | linear interpolation at p/100·(n−1) lies between the least and the greatest value |
| Windowing.PercentileMonotone | app/utils/image_processing.py:61-62 | a higher percentile is never smaller |
| Windowing.PercentileOfConstant | app/utils/image_processing.py:61-62 | every percentile of equal values is that value |
| Windowing.IntSqrt | app/utils/image_processing.py:14 | `int(np.sqrt(n))`: r² ≤ n < (r+1)² |
| Windowing.ReshapeOneDim | app/utils/image_processing.py:12-15 | 1-D data is reshaped to two axes with its elements in order; the reshape fails exactly when the length is not a perfect square |
| Windowing.FiniteValues | app/utils/image_processing.py:19 | the mask keeps exactly the finite values |
| Windowing.PositiveValues | app/utils/image_processing.py:48 | the mask keeps exactly the values greater than 0 |
| Windowing.Intensities | app/utils/image_processing.py:47-54 | the positive values when there are any, all finite values otherwise; empty exactly when there are no finite values |
| Windowing.CalculateOptimalWindowSettings | app/utils/image_processing.py:6-73 | fails only on a non-square 1-D input; the width is at least 1; no finite value gives (255, 128) |
| Windowing.CalculateOnFinite | app/utils/image_processing.py:19-73 | the settings are (255, 128) without finite values, otherwise the window of the percentiles of the intensities |
| Windowing.WindowWithinIntensities | app/utils/image_processing.py:61-71 | p2 ≤ p98; the width is max(p98 − p2, 1), at least 1 and at least p98 − p2; the centre is (p98 + p2) / 2 and lies between the least and the greatest intensity |
| Windowing.SortExtremes | app/utils/image_processing.py:61-62 | the first and last sorted values are among the inputs and bound all of them |
| Windowing.WindowIgnoresOrder | app/utils/image_processing.py:19-73 | arrays with the same multiset of finite values get the same settings, whatever their shape or order |
| Windowing.BackgroundExcluded | app/utils/image_processing.py:47-54 | when some value is positive, only the positive values count and the centre is positive |
| Windowing.UniformRegion | app/utils/image_processing.py:65-71 | a region of one positive value k gets width 1 (the clamp) and centre k |
| Windowing.CalculateAfterReshape | app/utils/image_processing.py:12-16 | reshaping 1-D data first, as the precomputation does, does not change the settings |
| Windowing.WindowPixel | app/utils/image_processing.py:82-102 | a background pixel (0) maps to 0 |
| Windowing.ApplyWindowLevel | app/utils/image_processing.py:75-102 | the output has the input's shape, and every background pixel is 0 |
| Windowing.AboveWindowIsWhite | app/utils/image_processing.py:91-97 | a nonzero pixel at or above the top of the window is 255 |
| Windowing.WindowBottomIsBlack | app/utils/image_processing.py:91-97 | a nonzero pixel at the bottom edge of the window is 0 |
| Windowing.BelowWindowIsUndefined | app/utils/image_processing.py:91-102 | a nonzero pixel below the window becomes NaN, so its byte is the platform's undefined byte |
| Windowing.NegInfPixelIsWhite | app/utils/image_processing.py:91-102 | a −inf pixel has linear position ±inf, which `np.power` turns into +inf, so it is clipped to 255 for every window |
| Windowing.ZeroWidthPixel | app/utils/image_processing.py:78-102 | with width 0 a nonzero pixel other than the centre divides a nonzero number by zero and comes out 255; the centre itself is 0/0, the undefined byte |
| Windowing.InsideWindow | app/utils/image_processing.py:91-102 | inside the window a pixel is the floor of the contrast curve at its linear position, capped at 255 |
| Windowing.WindowPixelMonotone | app/utils/image_processing.py:91-102 | if NaN casts to 0, non-background pixels are ordered like their values |
| Windowing.NormalizeData | app/utils/image_processing.py:104-109 | fails only on empty data; returns the minimum and the maximum, and one normalised byte per element |
| Windowing.NormalizeByteFinite | app/utils/image_processing.py:108 | a finite value in [lo, hi] with lo < hi becomes floor((v − lo)·255 / (hi − lo)): lo gives 0, hi gives 255 |
| Windowing.NormalizeFinite | app/utils/image_processing.py:104-109 | for finite data with max > min, each byte is the element's position in [min, max] on a 0–255 scale |
| Windowing.NormalizeConstant | app/utils/image_processing.py:108 | constant finite data divides 0 by 0, so every byte is the undefined one |
| Windowing.SliceOf | app/utils/image_processing.py:133 | slice i is a well-formed 2-D array |
| Windowing.MappedSlices | app/utils/image_processing.py:129-139 | one slice per axis-2 index, each the window/level mapping of that slice |
| Windowing.PrecomputeReference | app/utils/image_processing.py:111-143 | fails exactly on a non-square 1-D input (reshape error) or a rank other than 1, 2 or 3 (ValueError); otherwise returns the mapped slices and the range center ∓ width/2 |
| Windowing.PrecomputeReferenceOk | app/utils/image_processing.py:111-143 | on data that reshapes to 2-D or 3-D, the reference is the slices and range of `PrecomputeFrom` |
| Windowing.PrecomputeReferenceErr | app/utils/image_processing.py:114-141 | a failed reshape gives the reshape error, and a wrong rank after reshaping gives the dimensionality error |
| Windowing.MapSlices | app/utils/image_processing.py:130-139 | the slice loop returns exactly `MappedSlices` |
| Windowing.PrecomputeNormalizedSlices | app/utils/image_processing.py:111-143 | the method returns exactly `PrecomputeReference` |
| Windowing.PrecomputedRangeIsWidth | app/utils/image_processing.py:124-125 | data_max − data_min equals the window width, at least 1 |
| LegacyImaging.Half | utils/image_processing.py:21-22 | `w // 2` rounds toward negative infinity: 2r ≤ w < 2r + 2 |
| LegacyImaging.ClipInt | utils/image_processing.py:23 | `np.clip` keeps values inside [lo, hi] and clamps the rest; when lo > hi every value becomes hi |
| LegacyImaging.LegacyWindowLevel | utils/image_processing.py:19-25 | the pixel mapping applied element by element, keeping the shape |
| LegacyImaging.LegacyInside | utils/image_processing.py:21-24 | for w ≥ 2 a pixel is the floor of its clipped position in [c − w//2, c + w//2] times 255: 0 at or below the window, 255 at or above it |
| LegacyImaging.LegacyDegenerateWidth | utils/image_processing.py:21-24 | widths 0 and 1 halve to 0, so 0/0 gives the undefined byte |
| LegacyImaging.LegacyNegativeWidth | utils/image_processing.py:21-24 | for integer pixels, a negative width crosses the bounds, so every pixel becomes 255 (a uint8 image can wrap instead; see "## Left out") |
| LegacyImaging.LegacyMonotone | utils/image_processing.py:23-24 | for w ≥ 2 a brighter pixel never maps darker |
| LegacyImaging.ExtractMetadata | utils/image_processing.py:27-39 | fails on fewer than two axes; channels is 1 for 2-D data and shape[2] otherwise; the mean is `np.mean` of the pixels |
| LegacyImaging.DimensionsRoundTrip | utils/image_processing.py:29-35 | "Dimensions" splits at 'x' into the digits of shape[1] and then shape[0] |
| Upload.NiftiVolume | app/routes/upload.py:75-111 | fails with 400 exactly on empty data, rank < 2, rank > 4, or a squeeze that leaves other than two axes; otherwise returns 2-D or 3-D data with `total_slices` equal to its slice count |
| Upload.FlattenColour | app/routes/upload.py:147-148 | an RGB or RGBA image is averaged over axis 2; any other array is unchanged |
| Upload.Load | app/routes/upload.py:64-159 | a library failure is a 400; Pillow and pydicom report one slice |
| Upload.NiftiRoute | app/routes/upload.py:33-36 | an accepted ".nii.gz" name goes to Pillow; every name routed to nibabel ends in ".nii" |
| Upload.GzNotSupported | app/routes/upload.py:30-38 | the only accepted extension that ends in ".gz" is ".nii.gz" |
| Upload.LoaderOfPlainName | app/routes/upload.py:33-38 | an ordinary name with an accepted one-dot extension is accepted and loaded by nibabel, pydicom or Pillow as the extension says |
| Upload.UploadErrorStatus | app/routes/upload.py:24-232 | a wrong extension, empty content or a decoding failure fails; every error is a 400 except a failure to create the temporary file (before the empty check) or to write non-empty content into it (after the empty check), which are 500s; an empty upload whose file was created is the 400 "Empty file uploaded" even when writing would fail |
| Upload.ProcessStatus | app/routes/upload.py:161-223 | a processing failure is reported as 400 |
| Upload.ProcessRecord | app/routes/upload.py:161-214 | the stored record holds the loaded array with the reported window (width ≥ 1), slice count and id, one data URL per stored slice, and the range data_max − data_min = width |
| Upload.ProcessLoadedOk | app/routes/upload.py:161-214 | non-empty data whose settings and slices are computed yields the response and record of `Processed` |
| Upload.UploadStoresWhatItReports | app/routes/upload.py:24-214 | a successful upload stores the array it reports on, with the settings computed from it, the reported window, count and id, and the slices it answers with; success needs an accepted name, a created and written temporary file, non-empty content and a decoded array |
| Upload.NiftiSliceCount | app/routes/upload.py:80-111 | through nibabel, `total_slices` equals the number of slices sent |
| Upload.TwoChannelImageMiscount | app/routes/upload.py:140-153 | a grey-and-alpha Pillow image answers with two slices while reporting `total_slices` 1 |
| Upload.ProcessSlices | app/routes/upload.py:161-214 | non-empty 2-D or 3-D data is processed into one URL per slice and keeps the loaded count |
| Upload.EncodeSlices | app/routes/upload.py:186-193 | one data URL per slice, in order |
| Upload.ProcessAndStore | app/routes/upload.py:161-214 | answers as `ProcessLoaded` and, exactly on success, stores the record under the new id |
| Upload.UploadFile | app/routes/upload.py:24-232 | answers as `UploadReference` and, exactly on success, stores its record under the id; the store keeps its invariant |
| ImageRoutes.Slices | app/routes/image.py:113 | `for slice_data in data` visits the axis-0 items of a stored array, or the stored list itself |
| ImageRoutes.WindowLevelled | app/routes/image.py:100-125 | succeeds exactly for a stored id whose items can be windowed, and fails with 500 otherwise; sets centre and width to the arguments, replaces the slice list by one windowed slice per item of the data, and keeps the data, the count, `data_min` and `data_max` |
| ImageRoutes.WindowedSlices | app/routes/image.py:112-115 | one windowed slice per item |
| ImageRoutes.WindowLevelIteratesRows | app/routes/image.py:112-118 | on a stored 2-D image the new slice list holds one windowed row per image row |
| ImageRoutes.WindowLevelIdempotent | app/routes/image.py:100-125 | updating twice with the same settings gives the same record as updating once |
| ImageRoutes.ImageStore.UpdateWindowLevel | app/routes/image.py:100-125 | the store becomes the `WindowLevelled` record under the id on success and is unchanged on failure |
| ImageRoutes.QuarterTurns | app/routes/image.py:143 | `angle // 90` floors: 90r ≤ angle < 90r + 90 |
| ImageRoutes.RotatedItems | app/routes/image.py:141-144 | every item is turned by `np.rot90(·, k)` |
| ImageRoutes.RotatedRecord | app/routes/image.py:128-153 | succeeds exactly for a stored id whose items all have two axes, and fails with 500 otherwise; stores the turned items as a list in both `data` and `normalized_slices`, and keeps width, centre, count, `data_min` and `data_max` |
| ImageRoutes.RotatedRecordItems | app/routes/image.py:141-148 | the new data is the list of stored items turned by `angle // 90` |
| ImageRoutes.RotatedItemsCompose | app/routes/image.py:143 | turning by j and then by k turns by j + k |
| ImageRoutes.RotateTwice | app/routes/image.py:128-153 | two rotations compose into one by the sum of the quarter-turn counts, and a multiple of four turns restores the slices |
| ImageRoutes.RotateTwoDimensionalFails | app/routes/image.py:142-153 | a stored 2-D image cannot be rotated, because its items are rows; the request fails with 500 |
| ImageRoutes.ImageStore.RotateImage | app/routes/image.py:128-153 | the store becomes the `RotatedRecord` under the id on success and is unchanged on failure |
| ImageRoutes.SliceUrl | app/routes/image.py:67-97 | succeeds exactly when the id is stored and 0 ≤ n < the number of slices, and returns the data URL of slice n; every failure is a 500 |
| ImageRoutes.ImageStore.GetSlice | app/routes/image.py:67-97 | returns exactly `SliceUrl` |
| ImageRoutes.ImageStore.Put | app/routes/upload.py:196-204 | stores the record under the id, keeps the rest of the store and keeps its invariant |
| ImageRoutes.Cells | app/routes/image.py:36 | groups the bytes into float32 cells of four |
| ImageRoutes.JoinCells | app/routes/image.py:36-46 | joining the cells of a byte string gives the bytes back |
| ImageRoutes.CellsJoin | app/routes/image.py:36-46 | cutting joined cells gives the cells back |
| ImageRoutes.DecodeSlice | app/routes/image.py:36-37 | succeeds exactly when the encoded length is 4·height·width, giving a height × width grid |
| ImageRoutes.DecodeVolume | app/routes/image.py:35-37 | succeeds exactly when every slice decodes, one grid per slice |
| ImageRoutes.EncodeVolume | app/routes/image.py:43-46 | succeeds exactly when every turned slice's bytes are UTF-8 |
| ImageRoutes.HalfTurnSlices | app/routes/image.py:40 | `np.rot90(k=2, axes=(1, 2))` turns every slice half round |
| ImageRoutes.DecodeSlices | app/routes/image.py:35-37 | the decode loop returns exactly `DecodeVolume` |
| ImageRoutes.EncodeSlices | app/routes/image.py:43-46 | the encode loop returns exactly `EncodeVolume` |
| ImageRoutes.Rotate180 | app/routes/image.py:15-65 | returns exactly `Rotate180Reference`, where every failure is a 500 body, including a NaN or infinite minimum or maximum that `JSONResponse` refuses to render |
| ImageRoutes.Rotate180Unfold | app/routes/image.py:21-48 | a success needs the image data and two dimensions; its slices are the decoded slices, half turned and encoded |
| ImageRoutes.Rotate180Shape | app/routes/image.py:28-52 | the reported dimensions are depth, height, width, and the depth is kept |
| ImageRoutes.SliceTwice | app/routes/image.py:35-46 | if UTF-8 round-trips, a turned slice decodes back, and turning it again encodes to the original string |
| ImageRoutes.Rotate180Twice | app/routes/image.py:15-56 | if UTF-8 round-trips, posting a successful answer back succeeds too and gives the original slices with the same dimensions |
| ImageRoutes.HalfTurnKeepsValues | app/routes/image.py:35-40 | turning every slice by 180 degrees keeps the volume's values, each as often |
| ImageRoutes.HalfTurnSlicesTwice | app/routes/image.py:35-40 | two half turns of every slice give the volume back |
| ImageRoutes.Rotate180Range | app/routes/image.py:46-64 | once the slices decode and encode, the rotation succeeds exactly when every rotated value is finite, fails with the unrenderable-range 500 otherwise, and a success reports a minimum and maximum bounding every value |
| Directory.ListingPathNormal | app/routes/directory.py:22-24 | the listing path starts with "images" and has no backslash; it is kept exactly when it started with "images"; normalising is idempotent |
| Directory.ListingKeepsParentSteps | app/routes/directory.py:22-24 | "images/.." paths are kept verbatim, since only the prefix is checked |
| Directory.CleanListingPath | app/routes/directory.py:22-24 | a path without backslashes is kept when it starts with "images" and replaced by "images" otherwise |
| Directory.SortNames | app/routes/directory.py:47 | `sorted` returns the names in ascending order, as a permutation |
| Directory.ListingMembers | app/routes/directory.py:47-61 | a name is listed as a file exactly when it is visible, not a directory, and has an allowed extension; it is listed as a directory exactly when it is a visible directory |
| Directory.ListingDisjoint | app/routes/directory.py:54-61 | no name is listed both as a file and as a directory |
| Directory.ListingSorted | app/routes/directory.py:47-61 | both lists keep the sorted order |
| Directory.ListingContents | app/routes/directory.py:15-81 | the listing fails with 500 exactly when creating a missing `images` fails (detail "Error in list_directory: …") or listing the target fails (the doubly wrapped detail); otherwise both lists are sorted and hold exactly the qualifying visible entries of the target (the path, or "images" when that is no directory) |
| Directory.ListEntries | app/routes/directory.py:46-61 | the loop returns exactly `ListingOf` |
| Directory.ListDirectory | app/routes/directory.py:15-81 | returns exactly `ListingReference` |
| Directory.LoadPath | app/routes/directory.py:90-92 | the load path starts with "images/" and has no backslash |
| Directory.LoadPathIdempotent | app/routes/directory.py:90-92 | normalising twice changes nothing, and a clean path under "images/" is kept |
| Directory.CompressedNiftiIsNifti | app/routes/directory.py:107-109 | a ".nii.gz" path in any case is read by nibabel |
| Directory.GzExtension | app/routes/directory.py:107 | a path ending in a letter and ".gz", in any case, has extension ".gz" |
| Directory.NormalizeSlice | app/routes/directory.py:164 | every element is normalised with the data's range, keeping the shape |
| Directory.NormalizeInRange | app/routes/directory.py:164 | in a proper range a value becomes floor((v − min)/(max − min)·255), in 0–255 |
| Directory.NormalizeConstant | app/routes/directory.py:164 | a constant image gives 0/0 and the undefined byte |
| Directory.SlicesOf | app/routes/directory.py:155-158 | 3-D data gives one slice per axis-2 index, other data one slice, and every slice value is a data value |
| Directory.FirstTimePoint | app/routes/directory.py:123-130 | a NIfTI volume with more than three axes keeps index 0 of its last axis; other data is unchanged |
| Directory.EncodedFile | app/routes/directory.py:151-178 | one encoded slice per slice, the data's minimum and maximum, and the first two axes as dimensions |
| Directory.Rendered | app/routes/directory.py:170-178 | the returned dict renders exactly when its minimum and maximum are finite, unchanged; otherwise the answer is the bare 500 |
| Directory.LoadErrors | app/routes/directory.py:99-116 | a missing path gives 404 "File not found: " followed by the normalised path, a non-file gives 400 "Path is not a file" and an unsupported name gives 400 with the leading part of its detail; after these checks every error is a 500 |
| Directory.LoadSucceeds | app/routes/directory.py:118-178 | once the checks pass and the data is non-empty, the file loads exactly when every value is finite, with one slice per axis-2 index (or one) and a range bounding every value; a NaN or an infinity gives the bare 500 of the failed JSON rendering |
| Directory.LoadNormalizes | app/routes/directory.py:151-167 | for finite data with max > min every encoded byte is floor((v − min)/(max − min)·255), in 0–255 |
| Directory.SliceValueInRange | app/routes/directory.py:151-158 | every slice value lies between the data's minimum and maximum |
| Directory.EncodeSlices | app/routes/directory.py:161-167 | one base64 string per normalised slice, in order |
| Directory.LoadRemoteFile | app/routes/directory.py:83-192 | returns exactly `LoadReference`, including the 500 for a non-finite minimum or maximum |
| RootApp.AllowedFileOfName | app.py:39-40 | only the text after the last dot decides, lowercased, against `ALLOWED_EXTENSIONS` |
| RootApp.NoDotRefused | app.py:40 | a name without a dot is refused |
| RootApp.UpperCaseAllowed | app.py:40 | ".NII" passes |
| RootApp.CompressedAllowed | app.py:33-40 | every ".gz" name passes |
| RootApp.JpegRefused | app.py:33-40 | ".jpeg" is refused |
| RootApp.TrailingDotRefused | app.py:40 | a trailing dot leaves an empty extension, which is refused |
| RootApp.SaveUpload | app.py:47-77 | as a call of the handler: saved exactly when a file is given, its name is allowed and writing succeeds, with url "/static/uploads/" + name; every failure is the same 500 "Upload failed" (a `None` file arises only in a direct call; over HTTP FastAPI answers a missing file with 422 first) |
| FileHandling.Extension | app/utils/file_handling.py:12 | the extension has no dot; a name without a dot gives the whole lowercased name |
| FileHandling.DispatchExtension | app/utils/file_handling.py:13-20 | a refused extension raises "Unsupported file type: " followed by the extension |
| FileHandling.DispatchOfExtension | app/utils/file_handling.py:13-20 | a dot-free extension is accepted exactly when it is one of the six, and is dispatched to NIfTI, DICOM or Pillow as the code says |
| FileHandling.DispatchOfName | app/utils/file_handling.py:12-20 | only the name's last extension decides, in any case |
| FileHandling.CompressedNiftiRefused | app/utils/file_handling.py:12-13 | a ".nii.gz" name has extension "gz" and is refused; the "nii.gz" entry never matches |
| FileHandling.ProcessImageArray | app/utils/file_handling.py:39-46 | a 3-D image becomes the per-pixel mean over its last axis; other arrays are unchanged |
| FileHandling.GreyChannelsKept | app/utils/file_handling.py:44-45 | a pixel whose channels all hold v keeps v |
| FileHandling.ProcessFile | app/utils/file_handling.py:9-46 | an unsupported name fails with its message; success needs a decoded array; Pillow arrays are reduced to grey, others returned as decoded |
| Analysis.DistanceSquared | components/analysis.py:30-31 | the squared distance is nonnegative |
| Analysis.DistanceSymmetric | components/analysis.py:30-31 | the distance does not depend on the order of the two points |
| Analysis.Roll | components/analysis.py:36-37 | `np.roll(s, 1)` moves the last element to the front |
| Analysis.PolygonArea | components/analysis.py:35-37 | the area is nonnegative |
| Analysis.ShoelaceIsCycle | components/analysis.py:36-37 | the NumPy expression equals the sum of the polygon's edge cross products |
| Analysis.RotateArea | components/analysis.py:36-37 | starting at the second vertex gives the same area |
| Analysis.ShiftArea | components/analysis.py:36-37 | any cyclic shift of the vertices gives the same area |
| Analysis.ReverseArea | components/analysis.py:36-37 | reversing the vertices negates the signed sum and keeps the area |
| Analysis.UnitSquare | components/analysis.py:36-37 | a worked example, not a general property: the unit square has area 1 |
| Analysis.ShowMeasurements | components/analysis.py:27-38 | a distance exactly for "Distance" with two points, an area exactly for "Area" with more than two, and nothing otherwise |
| TestPatterns.LinesInsideCircle | utils/create_test_image.py:15-23 | every pixel the reference lines write already lies in the disc |
| TestPatterns.CircleSymmetric | utils/create_test_image.py:15-19 | the disc is symmetric under transposition and under reflection through the centre row |
| TestPatterns.StripePeriodic | utils/create_test_image.py:31-32 | the stripes repeat every 50 rows and do not depend on the column |
| TestPatterns.Zeros | utils/create_test_image.py:11 | a fresh 512×512 zero array |
| TestPatterns.FillCircle | utils/create_test_image.py:15-19 | the mask assignment makes the array equal to the disc |
| TestPatterns.DrawLines | utils/create_test_image.py:22-23 | the line writes leave the disc image unchanged |
| TestPatterns.CirclePattern | utils/create_test_image.py:10-23 | the first image is 512×512, equal to the disc mask, and holds only 0 and 255 |
| TestPatterns.FillRow | utils/create_test_image.py:32 | one row becomes 255 and the rest is unchanged |
| TestPatterns.StripePattern | utils/create_test_image.py:30-32 | the second image is 512×512, 255 exactly on rows whose offset in a 50-row period is below 25, and holds only 0 and 255 |
| Arrays.Items | app/routes/image.py:113 | iterating an array visits shape[0] items, each of the remaining shape |
| Arrays.AxisTwoSlice | app/utils/image_processing.py:133 | `a[:, :, i]` holds element k·shape[2] + i at position k |
| Arrays.Squeeze | app/routes/upload.py:95 | `np.squeeze` removes every axis of length 1 and keeps the elements in order |
| Arrays.LastIndexZero | app/routes/directory.py:130 | `a[..., 0]` drops the last axis and keeps its first index |
| Arrays.Mean | utils/image_processing.py:31 | the mean of nothing is NaN; otherwise the sum over the count |
| Arrays.MeanAxis2 | app/utils/file_handling.py:45 | each pixel is the mean of its channels |
| Arrays.QuarterTurn | app/routes/image.py:143 | `np.rot90(a, 1)` swaps the shape |
| Arrays.Rot90 | app/routes/image.py:143 | only k modulo 4 matters, and k ≡ 0 leaves the grid unchanged |
| Arrays.Rot90Compose | app/routes/image.py:143 | rotating by j then by k is rotating by j + k |
| Arrays.FourQuarterTurns | app/routes/image.py:143 | four quarter turns are the identity |
| Arrays.HalfTurnReverses | app/routes/image.py:40 | a half turn reverses the row-major element order |
| Arrays.AtHalfHalf | app/routes/image.py:40 | two half turns are the identity |
| Floats.Div | app/utils/image_processing.py:108 | IEEE division: exact for a nonzero divisor, NaN for 0/0 |
| Floats.Clip | app/utils/image_processing.py:97 | `np.clip` keeps NaN and puts every other value in [lo, hi] |
| Floats.ToUint8 | app/utils/image_processing.py:102 | a value in [0, 256) becomes its floor; NaN becomes the undefined byte |
| Floats.MinOf | app/utils/image_processing.py:106 | the least element, or NaN if an element is NaN |
| Floats.MaxOf | app/utils/image_processing.py:107 | the greatest element, or NaN if an element is NaN |
| Floats.MinOfNonFinite | app/routes/directory.py:151 | a NaN or −inf element makes `np.min` NaN or −inf |
| Floats.MaxOfNonFinite | app/routes/directory.py:152 | a NaN or +inf element makes `np.max` NaN or +inf |
| Floats.RangeFinite | app/routes/directory.py:151-152 | the minimum and the maximum are both finite exactly when every element is |
| Text.Lower | app/routes/upload.py:29 | ASCII lowercase, character by character |
| Text.AfterLast | app/utils/file_handling.py:12 | `split(c)[-1]` is the dot-free suffix after the last c, or the whole string |
| Text.SplitExt | app/routes/upload.py:36 | `os.path.splitext(p)[1]` is "" or a one-dot suffix of the base name |
| Text.SplitExtOf | app/routes/upload.py:36 | after an ordinary stem the extension is the given one-dot suffix |
| Text.SplitJoin | app/static/js/viewer.js:468 | splitting "a" + c + "b" at c gives [a, b] when neither part holds c |
| Text.DecimalRoundTrip | app/static/js/viewer.js:333 | reading back the printed digits of n gives n |
| Text.DecimalInjective | app/static/js/viewer.js:333 | distinct numbers print differently |

## Left out

- The Babylon.js engine, scene, texture and render loop, the DOM wiring, the menus, `showError`'s timer, `importFromUrl` and the other empty placeholder methods are left out. They draw to the page and change no modelled state. The one exception, the file input's second "change" listener, is modelled by `OnFileSelected`.
- Viewer.ImageViewer.OnFileSelected: the order in which the two replies of one selection arrive is a parameter, given by the order of the two outcomes. On the server the selection is two independent `Upload.UploadFile` calls, each storing its own record under its own id.
- The upload and browse menu items are left out: they only open a file dialog or a modal.
- `fetch` and `FormData` are not modelled. An upload is its outcome: thrown, a non-OK status, or a parsed reply.
- The async interleaving of `loadSlice` and `uploadFile` is not modelled; each handler runs to completion.
- Viewer.UploadInstalls: the reply's `data_min`, `data_max` and `bit_depth` are taken as given. The server's upload response omits them, so in the browser they are `undefined`, which the model does not represent.
- Viewer.ImageViewer.LoadSlice: only the slice selection is modelled. The texture and the display plane are not.
- Viewer.CellCountOfLayout: `Number` is modelled for digit strings only; any other layout text gives NaN and no cells.
- The library decoders are parameters, not models: file contents are whatever array the caller supplies. These are nibabel, pydicom, Pillow, `cv2.imdecode` (the legacy `load_image`) and `cv2.convertScaleAbs` (`adjust_contrast_brightness`).
- The file system calls `os.listdir`, `exists`, `isdir`, `isfile` and `chmod` are parameters, as are `tempfile` and `uuid`. `os.makedirs` is the parameter `makedirsFails`: whether creating a missing `images` directory raised.
- Http.HttpError: where a detail ends in `str(e)` of a library exception, or in a Python set of extensions joined in hash order, only the constant part before that text is modelled. This affects the upload route's "Failed to load … file: ", "Error processing file: ", "Server error while handling file: " and "Unsupported file type. Supported formats are: ", and the directory route's "Error in list_directory: ", "Error processing image: " and "Unsupported file type. Supported extensions: ". The detail of `Directory.LoadErrors` for an unsupported name is one of these.
- PNG and base64 encoding are parameters.
- Logging, `gc.collect` and `uncache` have no effect on results and are left out.
- Text.Lower: only ASCII letters are lowered. Python's `str.lower()` lowers every cased character, so a reported extension with a non-ASCII capital ("a.PNÉ" gives "pné" in Python) keeps that capital in the model. No accepted extension contains a non-ASCII letter, so every accept or refuse decision is the same.
- Floats: float32 and float64 rounding is not modelled. Values are exact reals with the infinities and NaN.
- Windowing.InsideWindow and Windowing.AboveWindowIsWhite: the contrast boost `np.power(·, 0.9)` is the parameter `gamma`. These lemmas assume only that `gamma` is monotone and fixes 0 and 255.
- Windowing.BelowWindowIsUndefined: what `astype(np.uint8)` does with NaN, the infinities or values outside 0–255 is platform-defined, so it is the parameter `undefinedByte`.
- The histogram of lines 57-58 of `app/utils/image_processing.py` is not modelled: its result is never used.
- LegacyImaging.LegacyWindowLevel: the pixels are unbounded integers and the arithmetic is exact. The uint8 dtype of the image the Streamlit viewer passes in (the output of `cv2.convertScaleAbs`) is not modelled. Under NumPy 1.x value-based casting, a positive width never wraps: a bound outside 0–255 widens the dtype, and otherwise the clipped pixel is at least the lower bound. With a negative width and both bounds in 0–255, though, `windowed - min_value` stays uint8 and wraps. For example, width −10 and centre 100 give 246, then −6273 after scaling, and the uint8 cast of that is platform-defined. The sidebar's width slider starts at 1 (components/sidebar.py:14), so the interface never sends a negative width.
- LegacyImaging.LegacyNegativeWidth: the 255 it states holds for integer pixels, not for a uint8 image whose bounds both lie in 0–255 (see the line above).
- LegacyImaging.LegacyWindowLevel: the model follows NumPy 1.x type promotion. Under NumPy 2, a bound that does not fit in uint8 makes `np.clip` of a uint8 image raise OverflowError, which the model does not represent.
- LegacyImaging.ExtractMetadata: the standard deviation and the two-decimal formatting of the mean are not modelled.
- Analysis.DistanceSquared: the square root is not taken, so the model states facts about the squared distance.
- `show_analysis` (the Streamlit display and matplotlib histogram) and the two-decimal formatting of measurements are left out.
- TestPatterns.CirclePattern and TestPatterns.StripePattern: writing the two images as PNG files is not modelled.
- RootApp.SaveUpload: FastAPI's request validation is not modelled. A request without a file gets 422 before the handler runs, so the `None` case describes a direct call of the handler only.
- `serve_upload` and `home` in `app.py` only return files and templates, and are left out.
- `process_nifti_file` and `process_dicom_file` in `app/routes/upload.py` and `app/utils/file_handling.py` are library calls, covered by the parameter `decoded`.
- `app/routes/image_registration.py` is not part of this model.
- The configuration and bootstrap code is not part of this model. `Config` holds only the extension list that the routes repeat.
