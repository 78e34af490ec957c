# Aadhaar face verification: ID-card face crop and result shaping

This project models the logic of `src/face_verify.py` in a small service that checks whether a webcam
photo and an Aadhaar (Indian identity card) photo show the same person.

- `extract_aadhaar_face` looks for a face on the ID-card image with a Haar cascade detector. It fails
  with "No face detected on Aadhaar card" when the detector reports nothing. Otherwise it takes the
  first reported rectangle, pads it by 20 px on every side and clamps it to the image with numpy
  slicing.
- `verify_faces` runs that extraction first. An exception there becomes the error record
  `{"error": message}`. Otherwise it calls the DeepFace library's `verify` with the webcam path and
  the *original* ID-card path, using RetinaFace detection, the ArcFace model, the cosine metric and
  strict detection. The library's `verified`, `distance` and `threshold` are copied into a metrics
  record together with the fixed names "ArcFace" and "RetinaFace". An exception from the library also
  becomes the error record.

Extraction therefore only decides *whether* the library is called. The cropped pixels never reach
it.

The model has two modules:

- `Raster` (`raster.dfy`) models images as rows of pixels all of one width. It also models the part
  of Python's slice semantics that `img[r0:r1, c0:c1]` uses: step 1, negative bounds counted from the
  end, clamping to the axis, and an empty range when stop does not exceed start. `Slice` gives the
  clamped range. `Selects` is the direct reading of Python's rule, used as a reference definition.
  `Crop` cuts out a window pixel for pixel.
- `FaceVerify` (`face_verify.dfy`) holds the crop window, the extraction and the result mapping.

Foreign calls are inputs to the model:

- `cv2.imread` followed by the grey conversion becomes `decoded`: a decoded BGR image, or the message
  OpenCV raises when the file did not decode.
- `detectMultiScale` becomes `faces`, the sequence of `(x, y, w, h)` rectangles it reports.
- `DeepFace.verify` becomes `deepface`, a function from the call's arguments (`Request`) to an
  `Outcome`: a verdict or a raised message.

`distance` and `threshold` are kept as the bits of a double (`Float64`). They are passed through and
never computed with.

## Model

| member | source | states |
|---|---|---|
| Raster.ClampIndex | src/face_verify.py:24-25 | a slice bound is placed within `[0, n]`; a bound already in range is kept; a bound past the end becomes `n`; a negative bound reaches 0 exactly when it is at most `-n` |
| Raster.Slice | src/face_verify.py:24-25 | the range a Python slice keeps lies inside the axis; in-range bounds are used as given; a stop not after the start (both bounds of one sign) gives an empty range |
| Raster.SliceSelects | src/face_verify.py:24-25 | an index is in the clamped range of `Slice` if and only if Python's rule keeps it: `start <= k < stop` after negative bounds are counted from the end |
| Raster.SliceColumns | src/face_verify.py:24-25 | cutting every row to a column range keeps the number of rows, gives rows of the range's width, and pixel `j` of row `i` is pixel `lo + j` of the original row |
| Raster.Crop | src/face_verify.py:24-25 | the 2-D slice has the window's height and width, and each of its pixels is the original pixel offset by the window's top-left corner |
| Raster.IndexKeeps | src/face_verify.py:24-25 | a pixel of the image appears in `img[r0:r1, c0:c1]` at its offset position if and only if Python's rule keeps both its row and its column |
| FaceVerify.CropWindow | src/face_verify.py:23-25 | the window always lies inside the image; it contains a face that lies inside the image; for a face that lies inside the image, the margin on each side is at most 20 px, and exactly 20 px unless the window meets the image edge; for any non-negative rectangle the window is at most `h+40` high and `w+40` wide |
| FaceVerify.ExtractAadhaarFace | src/face_verify.py:7-27 | an undecodable image fails with OpenCV's message; a decoded image fails if and only if no face is reported, and then with "No face detected on Aadhaar card"; otherwise the result is exactly the crop of the padded, clamped window around the first face |
| FaceVerify.VerifyFaces | src/face_verify.py:29-56 | the result is the error record if and only if decoding fails, no face is found or the library raises. Decode and no-face failures carry their own message whatever the library does. A library exception carries the library's message. A verdict gives the metrics record with `verified`, `distance_score` and `threshold` copied from it, and `model` "ArcFace" and `detector` "RetinaFace" always |
| FaceVerify.Keys | src/face_verify.py:45-56 | the returned dictionary has an `error` key if and only if it is the error record; the error record has exactly the key `error`; the metrics record has exactly the five distinct keys `verified`, `distance_score`, `threshold`, `model` and `detector`, so the two shapes never mix |
| FaceVerify.FirstFaceOnly | src/face_verify.py:20 | only the first reported rectangle affects the extraction; any later rectangles can be replaced without changing the result |
| FaceVerify.FaceKeptInCrop | src/face_verify.py:20-25 | every pixel of a first face that lies inside the image appears unchanged in the crop, at its offset from the window's corner |
| FaceVerify.NoFaceIgnoresDelegate | src/face_verify.py:17-18 | with a decoded image and no detected face the result is the no-face error, and it is the same for every possible library behaviour |
| FaceVerify.CropDiscarded | src/face_verify.py:32-42 | once at least one face is found, the result does not depend on the crop (its window or its pixels) beyond the fact that a face was found, because the crop is not passed on |
| FaceVerify.DelegateSeesOnlyOriginalPaths | src/face_verify.py:35-42 | the result depends on the library only through its answer to the one request made: the webcam path, the original ID-card path and the fixed configuration |

## Left out

- `src/main.py` is not part of this model. It covers FastAPI routing, CORS, temporary files, image
  read and write, float scaling with BGR-to-RGB conversion, and mapping `"error"` in the result to
  HTTP 400. All of that is I/O or floating point.
- The demo block under `if __name__ == "__main__"` (src/face_verify.py:59-75) is left out. It only
  checks that files exist and prints.
- The internals of OpenCV (`imread`, `cvtColor`, the Haar cascade with scale factor 1.1 and
  4 neighbours) and of DeepFace are left out. They are foreign libraries and appear only as the
  inputs described above. The exact wording of OpenCV's error message is not modelled.
- Numeric arithmetic: the detector returns numpy int32 coordinates, and the model uses unbounded
  integers. The image size bounds the coordinates, so wrap-around cannot occur.
- Missing keys: a library result without `verified`, `distance` or `threshold` would raise a
  `KeyError` that `verify_faces` also turns into an error record. `Outcome` cannot express such a
  malformed answer, so the model does not cover it.
- `src/face_verify.py` neither reorders colour channels nor downscales. Its caller `src/main.py`
  swaps BGR to RGB (src/main.py:52-53) and writes new files before calling `verify_faces`; that step
  is outside this model. In the code the ID-card crop is computed and then discarded, and the
  library receives the original path. This model follows the code, and `CropDiscarded` states the
  consequence.
- `decoded`, `faces` and `deepface` are independent inputs, but in the program all three come from
  the same ID-card file: the library runs its own detection on the file that was decoded. Nothing in
  the model links them, so it does not say how the library's verdict depends on that file's pixels.
- Detector failure: if the cascade file fails to load, `detectMultiScale` raises an OpenCV error
  (src/face_verify.py:11,15), which `verify_faces` also turns into an error record. `faces` is a
  plain sequence, so the model does not cover this path.
