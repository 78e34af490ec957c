/**
 * The ID-card face check of `src/face_verify.py`: `extract_aadhaar_face`
 * locates a face on the ID-card image and cuts out a padded window around
 * it, and `verify_faces` gates the comparison on that extraction, hands the
 * two image paths to the face-recognition library and shapes its answer
 * into either a metrics record or an error record.
 *
 * The foreign calls are inputs: the decoded ID image (or the message OpenCV
 * raises when the file does not decode), the rectangles the Haar cascade
 * reports for it, and the library's verify call as a function from request
 * to outcome.
 */
module FaceVerify {

  import opened Raster

  /** An exception-or-value, as Python's `raise` / `return` pair is modelled here. */
  datatype Result<T> = Success(value: T) | Failure(error: string)

  /** One pixel as `cv2.imread` decodes it: blue, green, red channel bytes. */
  datatype Pixel = Pixel(b: bv8, g: bv8, r: bv8)

  /** A face rectangle `(x, y, w, h)` as the detector reports it: column, row, width, height. */
  datatype Rect = Rect(x: int, y: int, w: int, h: int)

  /** A crop window: the row range and the column range of the image it keeps. */
  datatype Window = Window(rows: Span, cols: Span)

  /** Margin added on every side of the detected face before cropping. */
  const Padding: nat := 20

  /** Message of the exception raised when the detector finds no face. */
  const NoFaceMessage: string := "No face detected on Aadhaar card"

  function Max(a: int, b: int): int {
    if a < b then b else a
  }

  function Min(a: int, b: int): int {
    if a < b then a else b
  }

  /** The rectangle lies entirely inside an image of the given size. */
  predicate WithinImage(face: Rect, height: nat, width: nat) {
    && 0 <= face.y && 0 <= face.h && face.y + face.h <= height
    && 0 <= face.x && 0 <= face.w && face.x + face.w <= width
  }

  /** All four numbers are non-negative, as the cascade detector's output always is. */
  predicate NonNegative(face: Rect) {
    0 <= face.x && 0 <= face.y && 0 <= face.w && 0 <= face.h
  }

  /**
   * The part of an image of size `height` x `width` that the slice
   * `img[max(0, y-20):min(H, y+h+20), max(0, x-20):min(W, x+w+20)]` keeps.
   */
  function CropWindow(height: nat, width: nat, face: Rect): (win: Window)
    // never outside the image
    ensures win.rows.lo <= win.rows.hi <= height
    ensures win.cols.lo <= win.cols.hi <= width
    // a face inside the image stays inside the window
    ensures WithinImage(face, height, width) ==>
              && win.rows.lo <= face.y && face.y + face.h <= win.rows.hi
              && win.cols.lo <= face.x && face.x + face.w <= win.cols.hi
    // the margin is at most the padding on every side ...
    ensures WithinImage(face, height, width) ==>
              && face.y - win.rows.lo <= Padding && win.rows.hi - (face.y + face.h) <= Padding
              && face.x - win.cols.lo <= Padding && win.cols.hi - (face.x + face.w) <= Padding
    // ... and is the full padding except where the window meets the image edge
    ensures WithinImage(face, height, width) ==>
              && (win.rows.lo == face.y - Padding || win.rows.lo == 0)
              && (win.rows.hi == face.y + face.h + Padding || win.rows.hi == height)
              && (win.cols.lo == face.x - Padding || win.cols.lo == 0)
              && (win.cols.hi == face.x + face.w + Padding || win.cols.hi == width)
    // wherever the detector puts the rectangle, the window is at most 40 px larger
    ensures NonNegative(face) ==>
              && win.rows.hi - win.rows.lo <= face.h + 2 * Padding
              && win.cols.hi - win.cols.lo <= face.w + 2 * Padding
  {
    Window(Slice(height, Max(0, face.y - Padding), Min(height, face.y + face.h + Padding)),
           Slice(width, Max(0, face.x - Padding), Min(width, face.x + face.w + Padding)))
  }

  /**
   * `extract_aadhaar_face`: fails when the image did not decode (OpenCV's
   * grey conversion raises on an unread image) or when the detector reports
   * no face; otherwise crops the padded window around the first face.
   */
  function ExtractAadhaarFace(decoded: Result<Raster<Pixel>>, faces: seq<Rect>): (r: Result<Raster<Pixel>>)
    ensures decoded.Failure? ==> r == Failure(decoded.error)
    ensures decoded.Success? ==> (r.Failure? <==> |faces| == 0)
    ensures decoded.Success? && |faces| == 0 ==> r == Failure(NoFaceMessage)
    ensures decoded.Success? && |faces| > 0 ==>
              var img := decoded.value;
              var win := CropWindow(img.Height(), img.width, faces[0]);
              r.Success? && IsCropOf(r.value, img, win.rows, win.cols)
  {
    match decoded
    case Failure(message) => Failure(message)
    case Success(img) =>
      if |faces| == 0 then Failure(NoFaceMessage)
      else
        var win := CropWindow(img.Height(), img.width, faces[0]);
        Success(Crop(img, win.rows, win.cols))
  }

  /** An IEEE-754 double, kept as its bits: the model passes these values on and never computes with them. */
  datatype Float64 = Float64(bits: bv64)

  /** The arguments of the face-recognition library's verify call. */
  datatype Request = Request(img1Path: string, img2Path: string, detectorBackend: string,
                             modelName: string, distanceMetric: string, enforceDetection: bool)

  /** What the library's verify call does: answers with a verdict or raises. */
  datatype Outcome =
    | Verdict(verified: bool, distance: Float64, threshold: Float64)
    | Raised(message: string)

  /** The dictionary `verify_faces` returns: the metrics record or the error record. */
  datatype VerificationResult =
    | Metrics(verified: bool, distanceScore: Float64, threshold: Float64, model: string, detector: string)
    | Error(error: string)

  const ModelName: string := "ArcFace"
  const DetectorName: string := "RetinaFace"

  /** The one call `verify_faces` makes: the webcam path and the ORIGINAL ID-card path, with the fixed configuration. */
  function DelegateRequest(webcamPath: string, aadhaarPath: string): Request {
    Request(webcamPath, aadhaarPath, "retinaface", ModelName, "cosine", true)
  }

  /**
   * `verify_faces`: an extraction failure becomes the error record before the
   * library is called; the crop itself is not used; the library's verdict is
   * copied into the metrics record and its exception into the error record.
   */
  function VerifyFaces(webcamPath: string, aadhaarPath: string, decoded: Result<Raster<Pixel>>,
                       faces: seq<Rect>, deepface: Request -> Outcome): (r: VerificationResult)
    ensures r.Error? <==>
              decoded.Failure? || |faces| == 0 || deepface(DelegateRequest(webcamPath, aadhaarPath)).Raised?
    ensures decoded.Failure? ==> r == Error(decoded.error)
    ensures decoded.Success? && |faces| == 0 ==> r == Error(NoFaceMessage)
    ensures decoded.Success? && |faces| > 0 ==>
              match deepface(DelegateRequest(webcamPath, aadhaarPath))
              case Verdict(verified, distance, threshold) =>
                r.Metrics? && r.verified == verified && r.distanceScore == distance && r.threshold == threshold
              case Raised(message) => r == Error(message)
    ensures r.Metrics? ==> r.model == "ArcFace" && r.detector == "RetinaFace"
  {
    match ExtractAadhaarFace(decoded, faces)
    case Failure(message) => Error(message)
    case Success(_) =>
      match deepface(DelegateRequest(webcamPath, aadhaarPath))
      case Verdict(verified, distance, threshold) =>
        Metrics(verified, distance, threshold, ModelName, DetectorName)
      case Raised(message) => Error(message)
  }

  /** The keys of the returned dictionary, in insertion order. */
  function Keys(r: VerificationResult): (keys: seq<string>)
    ensures "error" in keys <==> r.Error?
    ensures r.Error? ==> keys == ["error"]
    ensures r.Metrics? ==> |keys| == 5 && forall i, j :: 0 <= i < j < |keys| ==> keys[i] != keys[j]
    ensures r.Metrics? ==>
              forall k :: k in keys <==> k in {"verified", "distance_score", "threshold", "model", "detector"}
  {
    match r
    case Metrics(_, _, _, _, _) => ["verified", "distance_score", "threshold", "model", "detector"]
    case Error(_) => ["error"]
  }

  /** Only the first reported rectangle decides the crop: later ones can be anything. */
  lemma FirstFaceOnly(decoded: Result<Raster<Pixel>>, faces: seq<Rect>, later: seq<Rect>)
    requires |faces| > 0
    ensures ExtractAadhaarFace(decoded, faces) == ExtractAadhaarFace(decoded, [faces[0]] + later)
  {
  }

  /** The pixels of a detected face that lies inside the image all appear, unchanged, in the crop. */
  lemma FaceKeptInCrop(img: Raster<Pixel>, faces: seq<Rect>, i: int, j: int)
    requires |faces| > 0 && WithinImage(faces[0], img.Height(), img.width)
    requires 0 <= i < faces[0].h && 0 <= j < faces[0].w
    ensures var c := ExtractAadhaarFace(Success(img), faces);
            var win := CropWindow(img.Height(), img.width, faces[0]);
            && c.Success?
            && faces[0].y + i - win.rows.lo < c.value.Height()
            && faces[0].x + j - win.cols.lo < c.value.width
            && c.value.rows[faces[0].y + i - win.rows.lo][faces[0].x + j - win.cols.lo]
               == img.rows[faces[0].y + i][faces[0].x + j]
  {
  }

  /** Without a detected face the result is the no-face error, whatever the library would have said. */
  lemma NoFaceIgnoresDelegate(webcamPath: string, aadhaarPath: string, img: Raster<Pixel>,
                              deepface1: Request -> Outcome, deepface2: Request -> Outcome)
    ensures VerifyFaces(webcamPath, aadhaarPath, Success(img), [], deepface1) == Error(NoFaceMessage)
    ensures VerifyFaces(webcamPath, aadhaarPath, Success(img), [], deepface1)
         == VerifyFaces(webcamPath, aadhaarPath, Success(img), [], deepface2)
  {
  }

  /**
   * The crop is discarded: once some face is found, the crop (its window or
   * its pixels) has no influence on the result beyond that a face was found.
   * The library still reads the ID-card file itself, through its own request.
   */
  lemma CropDiscarded(webcamPath: string, aadhaarPath: string, img1: Raster<Pixel>, img2: Raster<Pixel>,
                      faces1: seq<Rect>, faces2: seq<Rect>, deepface: Request -> Outcome)
    requires |faces1| > 0 && |faces2| > 0
    ensures VerifyFaces(webcamPath, aadhaarPath, Success(img1), faces1, deepface)
         == VerifyFaces(webcamPath, aadhaarPath, Success(img2), faces2, deepface)
  {
  }

  /**
   * The library is consulted once, on the original ID-card path: two
   * libraries that agree on that one request give the same result.
   */
  lemma DelegateSeesOnlyOriginalPaths(webcamPath: string, aadhaarPath: string, decoded: Result<Raster<Pixel>>,
                                      faces: seq<Rect>, deepface1: Request -> Outcome, deepface2: Request -> Outcome)
    requires deepface1(DelegateRequest(webcamPath, aadhaarPath)) == deepface2(DelegateRequest(webcamPath, aadhaarPath))
    ensures VerifyFaces(webcamPath, aadhaarPath, decoded, faces, deepface1)
         == VerifyFaces(webcamPath, aadhaarPath, decoded, faces, deepface2)
  {
  }
}
