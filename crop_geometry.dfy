/**
 * The default crop of the image-crop page: the largest square that fits the
 * displayed image, centred in it (centerAspectCrop in src/page/ImageCrop.jsx).
 *
 * Coordinates are display pixels. JavaScript numbers are modelled as reals;
 * halving is exact there, so the model needs no rounding.
 */
module CropGeometry {

  /** A crop rectangle as the page and the crop widget exchange it: a unit tag,
      the top-left corner and the size. */
  datatype Crop = Crop(unit: string, x: real, y: real, width: real, height: real)

  /** Math.min on two numbers. */
  function Min(a: real, b: real): (m: real)
    ensures m <= a && m <= b
    ensures m == a || m == b
  {
    if a <= b then a else b
  }

  /** The crop lies within the w-by-h box [0, w] x [0, h] of the displayed image. */
  predicate Inside(c: Crop, w: real, h: real)
  {
    0.0 <= c.x && 0.0 <= c.y && c.x + c.width <= w && c.y + c.height <= h
  }

  predicate IsSquare(c: Crop)
  {
    c.width == c.height
  }

  /** The crop's centre is the image's centre. */
  predicate IsCentred(c: Crop, w: real, h: real)
  {
    c.x + c.width / 2.0 == w / 2.0 && c.y + c.height / 2.0 == h / 2.0
  }

  /** The crop set on image load: a pixel-unit square whose side is the image's
      shorter side, centred in the image. */
  function CenterAspectCrop(imgWidth: real, imgHeight: real): (c: Crop)
    ensures c.unit == "px"
    ensures IsSquare(c)
    ensures c.width <= imgWidth && c.width <= imgHeight
    ensures c.width == imgWidth || c.width == imgHeight
    ensures IsCentred(c, imgWidth, imgHeight)
    ensures imgWidth <= imgHeight ==> c.x == 0.0
    ensures imgHeight <= imgWidth ==> c.y == 0.0
    ensures 0.0 <= imgWidth && 0.0 <= imgHeight ==> 0.0 <= c.width && Inside(c, imgWidth, imgHeight)
  {
    var size := Min(imgWidth, imgHeight);
    Crop("px", (imgWidth - size) / 2.0, (imgHeight - size) / 2.0, size, size)
  }

  /** No square inside the image is larger than the default crop. */
  lemma CenterAspectCropIsLargest(w: real, h: real, c: Crop)
    requires Inside(c, w, h) && IsSquare(c) && 0.0 <= c.width
    ensures c.width <= CenterAspectCrop(w, h).width
  {
  }

  /** The default crop is the only centred pixel-unit square whose side is the shorter side. */
  lemma CenterAspectCropIsUnique(w: real, h: real, c: Crop)
    requires c.unit == "px" && IsSquare(c) && c.width == Min(w, h) && IsCentred(c, w, h)
    ensures c == CenterAspectCrop(w, h)
  {
  }
}
