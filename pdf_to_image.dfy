/** The PDF-to-image page: the resolution settings, the loop rendering each
    page to an image, and the names of the downloaded files and ZIP archive. */
module PdfToImage {
  import opened Common
  import opened PdfModel

  datatype Dpi = Dpi72 | Dpi150 | Dpi300

  datatype OutputFormat = Jpg | PngImage

  /** How a rendered canvas is encoded. */
  datatype Encoding = Encoding(mimeType: string, quality: Option<real>, whiteBackground: bool, extension: string)

  /** One rendered page: its 1-based number, its size in pixels and its encoding. */
  datatype ConvertedPage = ConvertedPage(pageNumber: nat, width: int, height: int, encoding: Encoding)

  /** The archive the ZIP download builds: one folder, one entry per page, and the archive's name. */
  datatype ZipArchive = ZipArchive(folder: string, entries: seq<string>, name: string)

  function DpiValue(d: Dpi): nat
  {
    match d
    case Dpi72 => 72
    case Dpi150 => 150
    case Dpi300 => 300
  }

  /** PDF user space has 72 units per inch, so the render scale is dpi / 72. */
  function DpiToScale(d: Dpi): (scale: real)
    ensures scale * 72.0 == DpiValue(d) as real
    ensures scale >= 1.0
  {
    DpiValue(d) as real / 72.0
  }

  /** A higher resolution renders at a strictly larger scale. */
  lemma DpiToScaleIncreasing(a: Dpi, b: Dpi)
    requires DpiValue(a) < DpiValue(b)
    ensures DpiToScale(a) < DpiToScale(b)
  {
  }

  function EncodingOf(f: OutputFormat): (e: Encoding)
    ensures f == Jpg ==> e == Encoding("image/jpeg", Some(0.92), true, "jpg")
    ensures f == PngImage ==> e == Encoding("image/png", None, false, "png")
  {
    match f
    case Jpg => Encoding("image/jpeg", Some(0.92), true, "jpg")
    case PngImage => Encoding("image/png", None, false, "png")
  }

  /** A white background is painted exactly when the output has no transparency, that is for JPEG. */
  lemma WhiteBackgroundOnlyForJpeg(f: OutputFormat)
    ensures EncodingOf(f).whiteBackground <==> EncodingOf(f).mimeType == "image/jpeg"
    ensures EncodingOf(f).quality.Some? <==> f == Jpg
  {
  }

  /** The page the loop renders for page number `n` of a source page of the given size. */
  function Rendered(n: nat, source: PageSize, d: Dpi, f: OutputFormat): (c: ConvertedPage)
    ensures c.pageNumber == n && c.encoding == EncodingOf(f)
    ensures source.width * DpiToScale(d) - 0.5 < c.width as real <= source.width * DpiToScale(d) + 0.5
    ensures source.height * DpiToScale(d) - 0.5 < c.height as real <= source.height * DpiToScale(d) + 0.5
  {
    var scale := DpiToScale(d);
    ConvertedPage(n, Round(source.width * scale), Round(source.height * scale), EncodingOf(f))
  }

  /** The conversion: nothing without a file; otherwise one image per page, numbered
      1 to n in order, with the progress shown before each page and 100 at the end. */
  method ConvertPdfToImages(file: Option<string>, pages: seq<PageSize>, d: Dpi, f: OutputFormat)
    returns (converted: Option<seq<ConvertedPage>>, progress: seq<int>)
    ensures converted.None? <==> file.None?
    ensures file.None? ==> progress == []
    ensures converted.Some? ==>
      && |converted.value| == |pages|
      && (forall i :: 0 <= i < |pages| ==> converted.value[i] == Rendered(i + 1, pages[i], d, f))
      && |progress| == |pages| + 1
      && (forall i :: 0 <= i < |pages| ==> progress[i] == Progress(i, |pages|))
      && progress[|pages|] == 100
  {
    if file.None? {
      return None, [];
    }
    var numPages := |pages|;
    var scale := DpiToScale(d);
    var enc := EncodingOf(f);
    var out: seq<ConvertedPage> := [];
    progress := [];
    var i := 1;
    while i <= numPages
      invariant 1 <= i <= numPages + 1
      invariant |out| == i - 1 && |progress| == i - 1
      invariant forall j :: 0 <= j < i - 1 ==> out[j] == Rendered(j + 1, pages[j], d, f)
      invariant forall j :: 0 <= j < i - 1 ==> progress[j] == Progress(j, numPages)
    {
      progress := progress + [Progress(i - 1, numPages)];
      var page := pages[i - 1];
      var vw, vh := page.width * scale, page.height * scale;
      var rendered := ConvertedPage(i, Round(vw), Round(vh), enc);
      assert rendered == Rendered(i, page, d, f);
      out := out + [rendered];
      i := i + 1;
    }
    progress := progress + [100];
    return Some(out), progress;
  }

  /** The converted pages carry the numbers 1 to n, each once. */
  lemma ConvertedNumbersDistinct(pages: seq<PageSize>, converted: seq<ConvertedPage>, d: Dpi, f: OutputFormat)
    requires |converted| == |pages|
    requires forall i :: 0 <= i < |pages| ==> converted[i] == Rendered(i + 1, pages[i], d, f)
    ensures forall i, j :: 0 <= i < j < |converted| ==> converted[i].pageNumber != converted[j].pageNumber
  {
  }

  // ---------------------------------------------------------------- naming

  function Extension(f: OutputFormat): string
  {
    EncodingOf(f).extension
  }

  /** `${baseName}_page_${n}.${ext}`. */
  function PageFileName(fileName: Option<string>, f: OutputFormat, n: nat): (name: string)
    ensures var prefix := BaseName(fileName) + "_page_";
      |name| > |prefix| && name[..|prefix|] == prefix
  {
    BaseName(fileName) + "_page_" + NatToString(n) + "." + Extension(f)
  }

  /** Different page numbers give different file names, so no ZIP entry overwrites another. */
  lemma PageFileNameInjective(fileName: Option<string>, f: OutputFormat, a: nat, b: nat)
    requires PageFileName(fileName, f, a) == PageFileName(fileName, f, b)
    ensures a == b
  {
    MiddleInjective(BaseName(fileName) + "_page_", NatToString(a), NatToString(b), ".", Extension(f));
    NatToStringInjective(a, b);
  }

  /** Two names that differ only between a common prefix and a common suffix differ there. */
  lemma MiddleInjective(prefix: string, x: string, y: string, dot: string, ext: string)
    requires prefix + x + dot + ext == prefix + y + dot + ext
    ensures x == y
  {
    assert |x| == |y|;
    assert x == (prefix + x + dot + ext)[|prefix|..|prefix| + |x|];
    assert y == (prefix + y + dot + ext)[|prefix|..|prefix| + |y|];
  }

  lemma PageFileNameExample()
    ensures PageFileName(Some("rapport.pdf"), Jpg, 3) == "rapport_page_3.jpg"
    ensures PageFileName(None, PngImage, 12) == "document_page_12.png"
  {
    StripPdfSuffixOfAppended("rapport");
    assert NatToString(12) == "12" by {
      assert NatToString(1) == "1";
    }
  }

  /** The ZIP download: nothing when no page is converted; otherwise one
      folder `<base>_images` with one entry per page, saved as `<base>_images.zip`. */
  method DownloadAllAsZip(fileName: Option<string>, f: OutputFormat, converted: seq<ConvertedPage>)
    returns (zip: Option<ZipArchive>)
    ensures zip.None? <==> converted == []
    ensures zip.Some? ==>
      && zip.value.folder == BaseName(fileName) + "_images"
      && zip.value.name == BaseName(fileName) + "_images.zip"
      && |zip.value.entries| == |converted|
      && forall i :: 0 <= i < |converted| ==>
           zip.value.entries[i] == PageFileName(fileName, f, converted[i].pageNumber)
  {
    if |converted| == 0 {
      return None;
    }
    var base := BaseName(fileName);
    var entries: seq<string> := [];
    var i := 0;
    while i < |converted|
      invariant 0 <= i <= |converted| && |entries| == i
      invariant forall j :: 0 <= j < i ==> entries[j] == PageFileName(fileName, f, converted[j].pageNumber)
    {
      entries := entries + [base + "_page_" + NatToString(converted[i].pageNumber) + "." + Extension(f)];
      i := i + 1;
    }
    return Some(ZipArchive(base + "_images", entries, base + "_images.zip"));
  }

  /** An archive built from a conversion has no two entries with the same name. */
  lemma ZipEntriesDistinct(fileName: Option<string>, f: OutputFormat, converted: seq<ConvertedPage>, zip: ZipArchive)
    requires forall i, j :: 0 <= i < j < |converted| ==> converted[i].pageNumber != converted[j].pageNumber
    requires |zip.entries| == |converted|
    requires forall i :: 0 <= i < |converted| ==> zip.entries[i] == PageFileName(fileName, f, converted[i].pageNumber)
    ensures forall i, j :: 0 <= i < j < |zip.entries| ==> zip.entries[i] != zip.entries[j]
  {
    forall i, j | 0 <= i < j < |zip.entries| ensures zip.entries[i] != zip.entries[j] {
      if zip.entries[i] == zip.entries[j] {
        PageFileNameInjective(fileName, f, converted[i].pageNumber, converted[j].pageNumber);
      }
    }
  }
}
