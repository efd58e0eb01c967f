/** The upload checks at the head of the `POST /api/analyze` handler in
    `api/main.py`: at most five images, and every image, in upload order,
    must declare an `image/...` content type and hold at most 10 MiB. The
    first failing check decides the 400 error. */
module Validation {
  import opened Wrappers
  import opened Text
  import opened Storage

  /** One uploaded file as the handler sees it. */
  datatype Upload = Upload(filename: string, contentType: Option<string>, content: Bytes)

  const MaxImages: nat := 5
  const MaxImageBytes: nat := 10 * 1024 * 1024

  const TooManyImages: HttpError := HttpError(400, "Maximum 5 images allowed")
  const NotAnImage: HttpError := HttpError(400, "Only image files are allowed")
  const TooLarge: HttpError := HttpError(400, "Image size must be less than 10MB")

  /** A declared content type that is present, non-empty and starts with `image/`. */
  predicate IsImageType(contentType: Option<string>) {
    contentType.Some? && StartsWith(contentType.value, "image/")
  }

  /** An upload that passes both per-image checks. */
  predicate Acceptable(u: Upload) {
    IsImageType(u.contentType) && |u.content| <= MaxImageBytes
  }

  /** The per-image loop from position `i` on: the first upload that fails a
      check, and which check it fails (the type check comes first). */
  function FirstRejection(uploads: seq<Upload>, i: nat): (r: Option<HttpError>)
    requires i <= |uploads|
    ensures r.None? <==> forall j :: i <= j < |uploads| ==> Acceptable(uploads[j])
    ensures r.Some? ==> r.value == NotAnImage || r.value == TooLarge
    decreases |uploads| - i
  {
    if i == |uploads| then None
    else if !IsImageType(uploads[i].contentType) then Some(NotAnImage)
    else if |uploads[i].content| > MaxImageBytes then Some(TooLarge)
    else FirstRejection(uploads, i + 1)
  }

  /** The whole validation: `None` when the submission may proceed, otherwise
      the error the handler raises. */
  function ValidateUploads(uploads: seq<Upload>): (r: Option<HttpError>)
    ensures |uploads| > MaxImages ==> r == Some(TooManyImages)
    ensures r.None? <==> |uploads| <= MaxImages && forall j :: 0 <= j < |uploads| ==> Acceptable(uploads[j])
    ensures r.Some? ==> r.value == TooManyImages || r.value == NotAnImage || r.value == TooLarge
    ensures |uploads| <= MaxImages ==> r == FirstRejection(uploads, 0)
  {
    if |uploads| > MaxImages then Some(TooManyImages) else FirstRejection(uploads, 0)
  }

  /** The error names the first offending upload: when the images before
      position `j` pass and the one at `j` is not an image, the submission is
      refused as not an image, whatever follows. */
  lemma {:induction false} RejectsFirstOffender(uploads: seq<Upload>, j: nat)
    requires j < |uploads| <= MaxImages
    requires forall k :: 0 <= k < j ==> Acceptable(uploads[k])
    requires !Acceptable(uploads[j])
    ensures ValidateUploads(uploads)
      == Some(if IsImageType(uploads[j].contentType) then TooLarge else NotAnImage)
  {
    FirstRejectionAt(uploads, 0, j);
  }

  lemma {:induction false} FirstRejectionAt(uploads: seq<Upload>, i: nat, j: nat)
    requires i <= j < |uploads|
    requires forall k :: i <= k < j ==> Acceptable(uploads[k])
    requires !Acceptable(uploads[j])
    ensures FirstRejection(uploads, i)
      == Some(if IsImageType(uploads[j].contentType) then TooLarge else NotAnImage)
    decreases j - i
  {
    if i < j {
      assert Acceptable(uploads[i]);
      assert FirstRejection(uploads, i) == FirstRejection(uploads, i + 1);
      FirstRejectionAt(uploads, i + 1, j);
    } else {
      assert !Acceptable(uploads[i]);
    }
  }

  /** The size limit is inclusive: a single image of exactly 10 MiB is
      accepted and one byte more is refused as too large. */
  lemma SizeLimitInclusive(u: Upload)
    requires IsImageType(u.contentType)
    ensures |u.content| == MaxImageBytes ==> ValidateUploads([u]) == None
    ensures |u.content| == MaxImageBytes + 1 ==> ValidateUploads([u]) == Some(TooLarge)
  {
    if |u.content| > MaxImageBytes {
      RejectsFirstOffender([u], 0);
    }
  }
}
