/** Intake of one uploaded image file in the admin panel: the admission checks, the
    aspect-preserving fit, the title taken from the file name, and the record built. */
module Upload {
  import opened Wrappers
  import opened Text
  import opened Entities

  /** The largest accepted file, 50 MiB. */
  const MaxUploadBytes: nat := 50 * 1024 * 1024
  /** Longer-side bound of the display variant. */
  const DisplayMaxSize: nat := 2048
  /** Longer-side bound of the thumbnail variant. */
  const ThumbnailMaxSize: nat := 300

  /** `Math.round(n / d)` on the exact rational: the integer nearest to n/d, halves upwards. */
  function RoundedDiv(n: nat, d: nat): (r: nat)
    requires d > 0
    ensures 2 * d * r <= 2 * n + d < 2 * d * r + 2 * d
  {
    (2 * n + d) / (2 * d)
  }

  lemma MulLeft(k: nat, x: nat, y: nat)
    requires x <= y
    ensures k * x <= k * y
  {
    assert k * y == k * x + k * (y - x);
  }

  lemma LessMulCancel(k: nat, x: nat, y: nat)
    requires k * x < k * y
    ensures x < y
  {
    if y <= x {
      MulLeft(k, y, x);
      assert false;
    }
  }

  /** The rounding error is at most half a unit: |r*d - n| <= d/2, strictly below on one side. */
  lemma RoundingError(n: nat, d: nat)
    requires d > 0
    ensures var e: int := RoundedDiv(n, d) * d - n; -(d as int) < 2 * e <= d
  {
    var r := RoundedDiv(n, d);
    assert 2 * d * r == 2 * (r * d);
  }

  /** Rounding n/d cannot exceed a bound b that n/d itself does not exceed. */
  lemma RoundedDivAtMost(n: nat, d: nat, b: nat)
    requires d > 0 && n <= b * d
    ensures RoundedDiv(n, d) <= b
  {
    var r := RoundedDiv(n, d);
    assert 2 * d * r < 2 * d * (b + 1) by {
      assert 2 * d * (b + 1) == 2 * (b * d) + 2 * d;
    }
    LessMulCancel(2 * d, r, b + 1);
  }

  /** Rounding is monotone in the numerator. */
  lemma RoundedDivMonotone(n1: nat, n2: nat, d: nat)
    requires d > 0 && n1 <= n2
    ensures RoundedDiv(n1, d) <= RoundedDiv(n2, d)
  {
    var r1, r2 := RoundedDiv(n1, d), RoundedDiv(n2, d);
    assert 2 * d * r1 < 2 * d * (r2 + 1) by {
      assert 2 * d * (r2 + 1) == 2 * d * r2 + 2 * d;
    }
    LessMulCancel(2 * d, r1, r2 + 1);
  }

  /** `calculateOptimalDimensions`: unchanged when both sides fit; otherwise the longer side
      (the width when strictly wider) becomes `maxSize` and the other is scaled by the same
      ratio and rounded. */
  function FitWithin(width: nat, height: nat, maxSize: nat): (r: Dimensions)
    ensures width <= maxSize && height <= maxSize ==> r == Dimensions(width, height)
    ensures r.width <= maxSize && r.height <= maxSize
    ensures !(width <= maxSize && height <= maxSize) && width > height ==>
      && r.width == maxSize
      && var error: int := r.height * width - maxSize * height; -(width as int) < 2 * error <= width
    ensures !(width <= maxSize && height <= maxSize) && width <= height ==>
      && r.height == maxSize
      && var error: int := r.width * height - maxSize * width; -(height as int) < 2 * error <= height
  {
    if width <= maxSize && height <= maxSize then
      Dimensions(width, height)
    else if width > height then
      assert maxSize * height <= maxSize * width by { MulLeft(maxSize, height, width); }
      RoundedDivAtMost(maxSize * height, width, maxSize);
      RoundingError(maxSize * height, width);
      Dimensions(maxSize, RoundedDiv(maxSize * height, width))
    else
      assert maxSize * width <= maxSize * height by { MulLeft(maxSize, width, height); }
      RoundedDivAtMost(maxSize * width, height, maxSize);
      RoundingError(maxSize * width, height);
      Dimensions(RoundedDiv(maxSize * width, height), maxSize)
  }

  /** Fitting an already fitted image changes nothing. */
  lemma FitIdempotent(width: nat, height: nat, maxSize: nat)
    ensures var r := FitWithin(width, height, maxSize);
      FitWithin(r.width, r.height, maxSize) == r
  {
  }

  /** A smaller bound never gives a larger result, on either side: the thumbnail is never
      bigger than the display variant. */
  lemma FitMonotone(width: nat, height: nat, small: nat, large: nat)
    requires small <= large
    ensures FitWithin(width, height, small).width <= FitWithin(width, height, large).width
    ensures FitWithin(width, height, small).height <= FitWithin(width, height, large).height
  {
    if !(width <= small && height <= small) {
      if width > height {
        if width <= large && height <= large {
          ScaledSideAtMostOriginal(small, height, width);
        } else {
          ScaledSideMonotone(small, large, height, width);
        }
      } else {
        if width <= large && height <= large {
          ScaledSideAtMostOriginal(small, width, height);
        } else {
          ScaledSideMonotone(small, large, width, height);
        }
      }
    }
  }

  /** Scaling the shorter side by bound/longer, with bound below the longer side, does not
      make it grow. */
  lemma ScaledSideAtMostOriginal(bound: nat, side: nat, longer: nat)
    requires 0 < longer && bound < longer
    ensures RoundedDiv(bound * side, longer) <= side
  {
    assert bound * side <= side * longer by {
      assert bound * side <= longer * side;
    }
    RoundedDivAtMost(bound * side, longer, side);
  }

  /** The scaled shorter side grows with the bound. */
  lemma ScaledSideMonotone(small: nat, large: nat, side: nat, longer: nat)
    requires 0 < longer && small <= large
    ensures RoundedDiv(small * side, longer) <= RoundedDiv(large * side, longer)
  {
    assert small * side <= large * side;
    RoundedDivMonotone(small * side, large * side, longer);
  }

  lemma ThumbnailWithinDisplay(width: nat, height: nat)
    ensures FitWithin(width, height, ThumbnailMaxSize).width <= FitWithin(width, height, DisplayMaxSize).width
    ensures FitWithin(width, height, ThumbnailMaxSize).height <= FitWithin(width, height, DisplayMaxSize).height
  {
    FitMonotone(width, height, ThumbnailMaxSize, DisplayMaxSize);
  }

  /** Why a file is turned away before it is read. */
  datatype Rejection = TooLarge | NotAnImage

  /** The two admission checks, in the order the code makes them: size first, then type. */
  function Admission(size: nat, mimeType: string): (r: Option<Rejection>)
    ensures r.None? <==> size <= 52428800 && StartsWith(mimeType, "image/")
    ensures size > 52428800 ==> r == Some(TooLarge)
  {
    if size > MaxUploadBytes then Some(TooLarge)
    else if !StartsWith(mimeType, "image/") then Some(NotAnImage)
    else None
  }

  /** The notification shown for a rejected file. */
  function RejectionNotice(name: string, why: Rejection): string {
    match why
    case TooLarge => "File " + name + " troppo grande (max 50MB)"
    case NotAnImage => "File " + name + " non è un'immagine valida"
  }

  /** `name.split('.')[0].replace(/[_-]/g, ' ')`. */
  function DeriveTitle(name: string): (t: string)
    ensures |t| <= |name|
    ensures '.' !in t && '_' !in t && '-' !in t
  {
    SplitFirstPiece(name, '.');
    MapChars(Split(name, '.')[0], Spacer)
  }

  function Spacer(c: char): char {
    if c == '_' || c == '-' then ' ' else c
  }

  /** The title is the file name up to its first dot, with every `_` and `-` turned into a
      space; so it holds none of `.`, `_`, `-`. */
  lemma DeriveTitleProperties(name: string)
    ensures var t := DeriveTitle(name);
      && |t| <= |name|
      && (forall i | 0 <= i < |t| :: t[i] == Spacer(name[i]) && t[i] != '.' && t[i] != '_' && t[i] != '-')
      && (|t| == |name| || name[|t|] == '.')
  {
    SplitFirstPiece(name, '.');
    var p := Split(name, '.')[0];
    assert '.' !in p;
    forall i | 0 <= i < |p| ensures p[i] == name[i] && p[i] != '.' {
      assert p[i] in p;
    }
  }

  /** A selected file as the browser describes it. */
  datatype FileInfo = FileInfo(name: string, size: nat, mimeType: string)

  /** What the browser's reader, image decoder and canvas produced for an admitted file: the
      decoded size and the two re-encoded data URLs, or the failure. */
  datatype Decoding =
    | ReadFailed
    | LoadFailed
    | Decoded(width: nat, height: nat, displayDataUrl: string, thumbnailDataUrl: string)

  /** How the promise for one file settles: resolved with no image (and a notice), resolved
      with an image, or rejected with an error message. */
  datatype Outcome = Skipped(notice: string) | Processed(image: GalleryItem) | Failed(message: string)

  /** `processImage` for one file; `now` and `suffix` stand for `Date.now()` and the random
      base-36 suffix, `uploadDate` for the ISO timestamp. */
  function ProcessImage(file: FileInfo, decoding: Decoding, now: nat, suffix: string, uploadDate: string): (o: Outcome)
    ensures o.Skipped? <==> Admission(file.size, file.mimeType).Some?
    ensures o.Skipped? ==> o.notice == RejectionNotice(file.name, Admission(file.size, file.mimeType).value)
    ensures o.Failed? <==> Admission(file.size, file.mimeType).None? && !decoding.Decoded?
    ensures o.Processed? ==>
      && o.image.title == DeriveTitle(file.name)
      && o.image.src == decoding.displayDataUrl && o.image.thumbnail == decoding.thumbnailDataUrl
      && o.image.upload == Some(UploadInfo(file.name, file.size, RoundedDiv(3 * |decoding.displayDataUrl|, 4),
        Dimensions(decoding.width, decoding.height),
        FitWithin(decoding.width, decoding.height, DisplayMaxSize),
        FitWithin(decoding.width, decoding.height, ThumbnailMaxSize)))
  {
    match Admission(file.size, file.mimeType)
    case Some(why) => Skipped(RejectionNotice(file.name, why))
    case None =>
      match decoding
      case ReadFailed => Failed("Errore durante la lettura del file " + file.name)
      case LoadFailed => Failed("Impossibile caricare l'immagine " + file.name)
      case Decoded(w, h, displayUrl, thumbUrl) =>
        var compressed := FitWithin(w, h, DisplayMaxSize);
        var thumb := FitWithin(w, h, ThumbnailMaxSize);
        Processed(GalleryItem(
          StrId("img-" + NatToString(now) + "-" + suffix), displayUrl, thumbUrl, None,
          DeriveTitle(file.name), "giardinaggio", uploadDate,
          Some(UploadInfo(file.name, file.size, RoundedDiv(3 * |displayUrl|, 4),
            Dimensions(w, h), compressed, thumb))))
  }

  /** A file yields no image exactly when it is larger than 50 MiB or its type does not start
      with `image/`; when both hold, it is reported as too large. An admitted file yields an
      image unless reading or decoding fails, and the image is bounded as the fit promises. */
  lemma ProcessImageAdmission(file: FileInfo, decoding: Decoding, now: nat, suffix: string, uploadDate: string)
    ensures var o := ProcessImage(file, decoding, now, suffix, uploadDate);
      && (o.Skipped? <==> file.size > 52428800 || !StartsWith(file.mimeType, "image/"))
      && (file.size > 52428800 ==> o == Skipped("File " + file.name + " troppo grande (max 50MB)"))
      && (o.Processed? <==> !o.Skipped? && decoding.Decoded?)
      && (o.Processed? ==>
        && o.image.category == "giardinaggio" && o.image.id.StrId?
        && o.image.upload.Some?
        && o.image.upload.value.compressed.width <= 2048 && o.image.upload.value.compressed.height <= 2048
        && o.image.upload.value.thumbnail.width <= o.image.upload.value.compressed.width
        && o.image.upload.value.thumbnail.height <= o.image.upload.value.compressed.height)
  {
    if decoding.Decoded? {
      ThumbnailWithinDisplay(decoding.width, decoding.height);
    }
  }
}
