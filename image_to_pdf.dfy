/** The image-to-PDF page: the page-size and orientation settings, the
    stretch/fit/fill placement of each image inside the margins, the ordering
    of the image list, and the conversion loop adding one page per image. */
module ImageToPdf {
  import opened Common
  import opened PdfModel

  datatype PageSize = A4 | Letter | Custom
  datatype Orientation = Portrait | Landscape
  datatype FitMode = Fit | Fill | Stretch

  /** The page settings; the custom size and the margin are in millimetres. */
  datatype Settings = Settings(
    pageSize: PageSize,
    orientation: Orientation,
    customWidthMm: real,
    customHeightMm: real,
    marginMm: real,
    fitMode: FitMode)

  /** An image of the list: its decoded size and the MIME type of its file. */
  datatype ImageItem = ImageItem(id: string, image: Image, mimeType: string)

  const A4_WIDTH: real := 595.28
  const A4_HEIGHT: real := 841.89
  const LETTER_WIDTH: real := 612.0
  const LETTER_HEIGHT: real := 792.0
  const MM_TO_PT: real := 2.835

  const DEFAULT_SETTINGS: Settings := Settings(A4, Portrait, 210.0, 297.0, 10.0, Fit)

  const OUTPUT_NAME: string := "images-converti.pdf"

  // ---------------------------------------------------------------- page size

  /** The size before orientation: a named size in points, or the custom size converted from millimetres. */
  function BaseSize(s: Settings): (wh: (real, real))
    ensures s.pageSize == A4 ==> wh == (A4_WIDTH, A4_HEIGHT)
    ensures s.pageSize == Letter ==> wh == (LETTER_WIDTH, LETTER_HEIGHT)
    ensures s.pageSize == Custom ==> wh == (s.customWidthMm * MM_TO_PT, s.customHeightMm * MM_TO_PT)
  {
    match s.pageSize
    case A4 => (A4_WIDTH, A4_HEIGHT)
    case Letter => (LETTER_WIDTH, LETTER_HEIGHT)
    case Custom => (s.customWidthMm * MM_TO_PT, s.customHeightMm * MM_TO_PT)
  }

  /** The orientation makes the longer side horizontal (landscape) or vertical (portrait). */
  function Orient(w: real, h: real, o: Orientation): (d: (real, real))
    ensures d == (w, h) || d == (h, w)
    ensures o == Landscape ==> d.0 >= d.1
    ensures o == Portrait ==> d.0 <= d.1
  {
    if o == Landscape then (Max(w, h), Min(w, h)) else (Min(w, h), Max(w, h))
  }

  /** Orienting an oriented size changes nothing, and orienting a size or its
      transpose gives the same page. */
  lemma OrientNormalises(w: real, h: real, o: Orientation)
    ensures var d := Orient(w, h, o); Orient(d.0, d.1, o) == d
    ensures Orient(w, h, o) == Orient(h, w, o)
  {
  }

  function PageDimensions(s: Settings): (d: (real, real))
    ensures d == Orient(BaseSize(s).0, BaseSize(s).1, s.orientation)
  {
    var b := BaseSize(s);
    Orient(b.0, b.1, s.orientation)
  }

  lemma NamedPageDimensions()
    ensures PageDimensions(DEFAULT_SETTINGS) == (595.28, 841.89)
    ensures PageDimensions(DEFAULT_SETTINGS.(orientation := Landscape)) == (841.89, 595.28)
    ensures PageDimensions(DEFAULT_SETTINGS.(pageSize := Letter, orientation := Landscape)) == (792.0, 612.0)
  {
  }

  /** The margin in points and the area inside it. */
  function ContentBox(pageW: real, pageH: real, marginMm: real): (b: Box)
    ensures b.x == b.y == marginMm * MM_TO_PT
    ensures b.x + b.width == pageW - marginMm * MM_TO_PT
    ensures b.y + b.height == pageH - marginMm * MM_TO_PT
  {
    var m := marginMm * MM_TO_PT;
    Box(m, m, pageW - m * 2.0, pageH - m * 2.0)
  }

  // ---------------------------------------------------------------- placement

  /** Where an image of `iw` by `ih` pixels is drawn inside the content box. */
  function Layout(mode: FitMode, c: Box, iw: Positive, ih: Positive): (r: Box)
    ensures mode == Stretch ==> r == c
    ensures mode != Stretch ==> Centred(r, c)
  {
    match mode
    case Stretch => Box(c.x, c.y, c.width, c.height)
    case Fit =>
      var scale := Min(c.width / iw, c.height / ih);
      var w, h := iw * scale, ih * scale;
      Box(c.x + (c.width - w) / 2.0, c.y + (c.height - h) / 2.0, w, h)
    case Fill =>
      var scale := Max(c.width / iw, c.height / ih);
      var w, h := iw * scale, ih * scale;
      Box(c.x + (c.width - w) / 2.0, c.y + (c.height - h) / 2.0, w, h)
  }

  predicate Centred(b: Box, c: Box)
  {
    b.x - c.x == (c.x + c.width) - (b.x + b.width) && b.y - c.y == (c.y + c.height) - (b.y + b.height)
  }

  predicate KeepsAspect(b: Box, iw: real, ih: real)
  {
    b.width * ih == b.height * iw
  }

  /** Stretch draws exactly the content box, whatever the image. */
  lemma StretchIsContent(c: Box, iw: Positive, ih: Positive)
    ensures Layout(Stretch, c, iw, ih) == c
  {
  }

  lemma MulDivCancel(a: real, b: Positive)
    ensures b * (a / b) == a
  {
  }

  lemma MulMonotone(k: Positive, a: real, b: real)
    requires a <= b
    ensures k * a <= k * b
  {
  }

  /** Fit: the image keeps its aspect ratio, lies inside the content box,
      touches it on one side and is centred in it. */
  lemma FitInside(c: Box, iw: Positive, ih: Positive)
    requires c.width > 0.0 && c.height > 0.0
    ensures var b := Layout(Fit, c, iw, ih);
      && KeepsAspect(b, iw, ih) && Centred(b, c)
      && c.x <= b.x && b.x + b.width <= c.x + c.width
      && c.y <= b.y && b.y + b.height <= c.y + c.height
      && (b.width == c.width || b.height == c.height)
  {
    var sx, sy := c.width / iw, c.height / ih;
    MulDivCancel(c.width, iw);
    MulDivCancel(c.height, ih);
    if sx <= sy {
      MulMonotone(ih, sx, sy);
    } else {
      MulMonotone(iw, sy, sx);
    }
  }

  /** Fill: the image keeps its aspect ratio, covers the content box, matches
      it on one side and is centred on it. */
  lemma FillCovers(c: Box, iw: Positive, ih: Positive)
    requires c.width > 0.0 && c.height > 0.0
    ensures var b := Layout(Fill, c, iw, ih);
      && KeepsAspect(b, iw, ih) && Centred(b, c)
      && b.x <= c.x && c.x + c.width <= b.x + b.width
      && b.y <= c.y && c.y + c.height <= b.y + b.height
      && (b.width == c.width || b.height == c.height)
  {
    var sx, sy := c.width / iw, c.height / ih;
    MulDivCancel(c.width, iw);
    MulDivCancel(c.height, ih);
    if sx >= sy {
      MulMonotone(ih, sy, sx);
    } else {
      MulMonotone(iw, sx, sy);
    }
  }

  /** An image with the content box's own shape is drawn exactly on it in every mode. */
  lemma SameShapeIsExact(c: Box, iw: Positive, ih: Positive, mode: FitMode)
    requires c.width > 0.0 && c.height > 0.0 && c.width * ih == c.height * iw
    ensures Layout(mode, c, iw, ih) == c
  {
    var sx, sy := c.width / iw, c.height / ih;
    assert sx == sy by {
      MulDivCancel(c.width, iw);
      MulDivCancel(c.height, ih);
      assert iw * ih * sx == iw * ih * sy;
    }
    MulDivCancel(c.width, iw);
    MulDivCancel(c.height, ih);
    assert iw * sy == c.width;
  }

  // ---------------------------------------------------------------- the image list

  /** Moving the image at `index` up or down one place: the two slots swap, and
      a move past either end gives the list back unchanged. */
  function MoveImage(images: seq<ImageItem>, index: nat, up: bool): (r: seq<ImageItem>)
    requires index < |images|
    ensures |r| == |images| && multiset(r) == multiset(images)
    ensures (up && index == 0) || (!up && index == |images| - 1) ==> r == images
    ensures up && index > 0 ==>
      r == images[index - 1 := images[index]][index := images[index - 1]]
    ensures !up && index + 1 < |images| ==>
      r == images[index + 1 := images[index]][index := images[index + 1]]
  {
    var target := if up then index - 1 else index + 1;
    if target < 0 || target >= |images| then images
    else
      SwapKeepsMultiset(images, index, target);
      images[index := images[target]][target := images[index]]
  }

  /** Swapping two slots keeps the same images. */
  lemma SwapKeepsMultiset<T>(s: seq<T>, i: nat, j: nat)
    requires i < |s| && j < |s|
    ensures multiset(s[i := s[j]][j := s[i]]) == multiset(s)
  {
    var t := s[i := s[j]];
    assert multiset(t) == multiset(s) - multiset{s[i]} + multiset{s[j]};
    assert multiset(t[j := s[i]]) == multiset(t) - multiset{t[j]} + multiset{s[i]};
  }

  /** Moving back where it came from undoes a move. */
  lemma MoveImageInverse(images: seq<ImageItem>, index: nat, up: bool)
    requires index < |images|
    requires if up then index > 0 else index + 1 < |images|
    ensures var target := if up then index - 1 else index + 1;
      MoveImage(MoveImage(images, index, up), target, !up) == images
  {
  }

  /** `prev.filter(img => img.id !== id)`. */
  function RemoveImage(images: seq<ImageItem>, id: string): (r: seq<ImageItem>)
    ensures |r| <= |images|
    ensures forall i :: 0 <= i < |r| ==> r[i].id != id
    ensures forall x :: x in images && x.id != id ==> x in r
    ensures multiset(r) <= multiset(images)
  {
    if images == [] then []
    else
      assert images == [images[0]] + images[1..];
      assert multiset(images) == multiset{images[0]} + multiset(images[1..]);
      (if images[0].id == id then [] else [images[0]]) + RemoveImage(images[1..], id)
  }

  /** JPEG and PNG files are embedded as they are; any other format is
      redrawn on a canvas and embedded as PNG. */
  function EmbedFormat(mimeType: string): (f: ImageFormat)
    ensures f == Jpeg <==> mimeType == "image/jpeg"
  {
    if mimeType == "image/jpeg" then Jpeg else Png
  }

  function Embedded(item: ImageItem): Image
  {
    item.image.(format := EmbedFormat(item.mimeType))
  }

  // ---------------------------------------------------------------- conversion

  /** The page made for one image: the computed size, the image drawn in its box. */
  function ImagePage(item: ImageItem, s: Settings): (p: Page)
    ensures p.width == PageDimensions(s).0 && p.height == PageDimensions(s).1
    ensures |p.ops| == 1
  {
    var d := PageDimensions(s);
    var c := ContentBox(d.0, d.1, s.marginMm);
    var img := Embedded(item);
    Page(d.0, d.1, [DrawImageIn(img, Layout(s.fitMode, c, img.width, img.height))])
  }

  /** The conversion: nothing for an empty list; otherwise one page per image,
      in list order, all of the same size, and the progress shown before each
      image, then 100. */
  method ConvertToPdf(images: seq<ImageItem>, s: Settings) returns (pages: Option<seq<Page>>, progress: seq<int>)
    ensures images == [] <==> pages.None?
    ensures images == [] ==> progress == []
    ensures pages.Some? ==>
      && |pages.value| == |images|
      && (forall i :: 0 <= i < |images| ==> pages.value[i] == ImagePage(images[i], s))
      && |progress| == |images| + 1
      && (forall i :: 0 <= i < |images| ==> progress[i] == Progress(i, |images|))
      && progress[|images|] == 100
  {
    if |images| == 0 {
      return None, [];
    }
    var d := PageDimensions(s);
    var margin := s.marginMm * MM_TO_PT;
    var content := Box(margin, margin, d.0 - margin * 2.0, d.1 - margin * 2.0);
    var doc: seq<Page> := [];
    progress := [];
    var i := 0;
    while i < |images|
      invariant 0 <= i <= |images|
      invariant |doc| == i && |progress| == i
      invariant forall j :: 0 <= j < i ==> doc[j] == ImagePage(images[j], s)
      invariant forall j :: 0 <= j < i ==> progress[j] == Progress(j, |images|)
    {
      progress := progress + [Progress(i, |images|)];
      var img := Embedded(images[i]);
      var page := NewPage(d.0, d.1);
      var b := Layout(s.fitMode, content, img.width, img.height);
      page := AppendOp(page, DrawImage(img, b.x, b.y, b.width, b.height));
      doc := doc + [page];
      i := i + 1;
    }
    progress := progress + [100];
    return Some(doc), progress;
  }

  /** The progress values shown during a conversion never go down. */
  lemma ConversionProgressMonotone(n: nat, i: nat, j: nat)
    requires 0 < n && i <= j < n
    ensures Progress(i, n) <= Progress(j, n) <= 100
  {
    ProgressMonotone(i, j, n);
  }
}
