/**
 * Rasterising the page and choosing its image format
 * (pages/api/mupdf/convert-page.ts): one attempt at the planned scale and,
 * when that fails, one at half of it (never below 1); the page's metadata
 * records the scale that was actually used.  The smaller of the PNG and
 * JPEG encodings is kept.  MuPDF itself is an input: `render` gives the
 * raster's two encodings at a scale, or None when `toPixmap` throws.
 */
module Rendering {
  import opened Text
  import ScalePlanner

  datatype Format = Png | Jpeg

  /** The two encodings of one raster: `asPNG()` and `asJPEG(80, false)`. */
  datatype Pixmap = Pixmap(png: seq<Byte>, jpeg: seq<Byte>)

  /** An encoded page image. */
  datatype Image = Image(format: Format, bytes: seq<Byte>)

  /** The metadata stored with the page: its size in points and in pixels, and the scale between them. */
  datatype PageMetadata = PageMetadata(
    originalWidth: real,
    originalHeight: real,
    width: real,
    height: real,
    scaleFactor: real)

  /** The extension and MIME subtype of a format. */
  function FormatName(f: Format): string {
    if f.Png? then "png" else "jpeg"
  }

  /** `metadata` describes a page of `w` by `h` points rendered at scale `s`. */
  predicate Describes(metadata: PageMetadata, w: real, h: real, s: real) {
    && metadata.originalWidth == w
    && metadata.originalHeight == h
    && metadata.scaleFactor == s
    && metadata.width == w * s
    && metadata.height == h * s
  }

  /** The metadata of a page of `w` by `h` points rendered at scale `s`. */
  function Metadata(w: real, h: real, s: real): (m: PageMetadata)
    ensures Describes(m, w, h, s)
  {
    PageMetadata(w, h, w * s, h * s, s)
  }

  /** `Math.max(1, scaleFactor * 0.5)`: the scale of the second attempt. */
  function ReducedScale(s: real): (r: real)
    ensures r >= 1.0
    ensures s >= 2.0 ==> r == s / 2.0
    ensures s <= 2.0 ==> r == 1.0
    ensures s >= 1.0 ==> r <= s
  {
    ScalePlanner.MaxReal(1.0, s * 0.5)
  }

  /**
   * The rasterisation with its one fallback.  `scales` lists the scales
   * tried, in order; `pixmap` is the raster of the last one (None: the
   * fallback threw as well); `metadata` starts out for the planned scale and
   * is updated in place when the fallback is taken.
   */
  method RenderPage(w: real, h: real, scale: real, render: real -> Option<Pixmap>)
    returns (pixmap: Option<Pixmap>, metadata: PageMetadata, scales: seq<real>)
    ensures render(scale).Some? ==> scales == [scale]
    ensures render(scale).None? ==> scales == [scale, ReducedScale(scale)]
    ensures pixmap == render(scales[|scales| - 1])
    ensures Describes(metadata, w, h, scales[|scales| - 1])
    ensures metadata == Metadata(w, h, scales[|scales| - 1])
  {
    var actualScaleFactor := scale;
    metadata := PageMetadata(w, h, w * actualScaleFactor, h * actualScaleFactor, actualScaleFactor);
    scales := [scale];
    pixmap := render(scale);
    if pixmap.None? {
      var reducedScaleFactor := ReducedScale(scale);
      scales := scales + [reducedScaleFactor];
      pixmap := render(reducedScaleFactor);
      actualScaleFactor := reducedScaleFactor;
      metadata := metadata.(width := w * actualScaleFactor);
      metadata := metadata.(height := h * actualScaleFactor);
      metadata := metadata.(scaleFactor := actualScaleFactor);
    }
  }

  /** The PNG encoding when it is strictly smaller, the JPEG encoding otherwise. */
  function ChooseEncoding(p: Pixmap): (img: Image)
    ensures img.format.Png? <==> |p.png| < |p.jpeg|
    ensures img.bytes == if img.format.Png? then p.png else p.jpeg
    ensures |img.bytes| <= |p.png| && |img.bytes| <= |p.jpeg|
  {
    if |p.png| < |p.jpeg| then Image(Png, p.png) else Image(Jpeg, p.jpeg)
  }

  // ----- properties -----

  /** Encodings of equal size give a JPEG. */
  lemma TieGivesJpeg(p: Pixmap)
    requires |p.png| == |p.jpeg|
    ensures ChooseEncoding(p) == Image(Jpeg, p.jpeg)
  {
  }

  /**
   * Whatever happens, a page is rendered at a scale between 1 and the planned
   * one, and the fallback scale of an oversized page is 1 whenever the
   * planned one is at most 2.
   */
  lemma RenderedScaleBounds(w: real, h: real)
    requires w > 0.0 && h > 0.0
    ensures var s := ScalePlanner.OptimalScaleFactor(w, h);
      1.0 <= ReducedScale(s) <= s
    ensures ScalePlanner.OptimalScaleFactor(w, h) <= 2.0 ==>
      ReducedScale(ScalePlanner.OptimalScaleFactor(w, h)) == 1.0
  {
  }

  /** Example: a narrow page whose first raster fails is rendered at 1.475, half of 2.95. */
  lemma NarrowFallback()
    ensures ReducedScale(ScalePlanner.NarrowScale) == 1.475
  {
  }
}
