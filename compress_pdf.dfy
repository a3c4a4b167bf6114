/** The compression page: every source page is rasterised at the preset's
    scale, re-encoded as a JPEG at the preset's quality and placed alone on a
    page of the same size in a new document. */
module CompressPdf {
  import opened Common
  import opened PdfModel

  datatype CompressionLevel = Light | Recommended | Maximum

  datatype Preset = Preset(scale: Positive, quality: real)

  /** What the page keeps after a run: the new pages, the JPEG quality they were
      encoded at, and the sizes shown in the result panel. */
  datatype Compressed = Compressed(pages: seq<Page>, quality: real, originalSize: nat, compressedSize: nat)

  /** The body of the usage-tracking request sent after a successful run. */
  datatype TrackRequest = TrackRequest(filename: string, originalName: string, fileType: string, action: string, size: nat)

  /** The file the user picked: its name and its size in bytes. */
  datatype SourceFile = SourceFile(name: string, size: nat)

  const DEFAULT_LEVEL: CompressionLevel := Recommended

  function PresetOf(level: CompressionLevel): (p: Preset)
    ensures 1.0 <= p.scale <= 1.5 && 0.4 <= p.quality <= 0.8
  {
    match level
    case Light => Preset(1.5, 0.8)
    case Recommended => Preset(1.2, 0.6)
    case Maximum => Preset(1.0, 0.4)
  }

  /** How hard a level compresses: 0 for light up to 2 for maximum. */
  function Strength(level: CompressionLevel): nat
  {
    match level
    case Light => 0
    case Recommended => 1
    case Maximum => 2
  }

  /** A stronger level lowers both the render scale and the JPEG quality, and
      every quality is a valid `toDataURL` quality. */
  lemma PresetsOrdered(a: CompressionLevel, b: CompressionLevel)
    requires Strength(a) < Strength(b)
    ensures PresetOf(b).scale < PresetOf(a).scale
    ensures PresetOf(b).quality < PresetOf(a).quality
    ensures 0.0 < PresetOf(a).quality <= 1.0
  {
  }

  /** The size saving in percent shown after a run. */
  function ReductionPercentage(originalSize: nat, compressedSize: nat): (r: int)
    ensures originalSize == 0 || compressedSize == 0 ==> r == 0
    ensures originalSize > 0 && compressedSize > 0 ==>
      var exact := (originalSize - compressedSize) as real / originalSize as real * 100.0;
      exact - 0.5 < r as real <= exact + 0.5
    ensures r <= 100
    ensures compressedSize <= originalSize ==> r >= 0
  {
    if originalSize == 0 || compressedSize == 0 then 0
    else
      var o, c := originalSize as real, compressedSize as real;
      assert (o - c) / o <= 1.0 by {
        assert o - c <= o;
        DivMonotone(o - c, o, o);
      }
      assert c <= o ==> 0.0 <= (o - c) / o by {
        if c <= o {
          DivMonotone(0.0, o - c, o);
        }
      }
      Round((o - c) / o * 100.0)
  }

  /** `Math.round` never decreases when its argument grows. */
  lemma RoundMonotone(x: real, y: real)
    requires x <= y
    ensures Round(x) <= Round(y)
  {
  }

  /** A smaller output never shows a smaller saving. */
  lemma {:induction false} ReductionMonotone(originalSize: nat, c1: nat, c2: nat)
    requires originalSize > 0 && 0 < c1 <= c2
    ensures ReductionPercentage(originalSize, c2) <= ReductionPercentage(originalSize, c1)
  {
    var o := originalSize as real;
    assert (o - c2 as real) / o <= (o - c1 as real) / o by {
      DivMonotone(o - c2 as real, o - c1 as real, o);
    }
    RoundMonotone((o - c2 as real) / o * 100.0, (o - c1 as real) / o * 100.0);
  }

  /** The page the rebuild adds for one source page: the viewport size at the
      preset's scale, holding only the JPEG drawn at the origin over the whole page. */
  function RebuiltPage(source: PageSize, level: CompressionLevel): (p: Page)
    ensures p.width == source.width * PresetOf(level).scale
    ensures p.height == source.height * PresetOf(level).scale
    ensures |p.ops| == 1 && p.ops[0].DrawImage? && p.ops[0].image.format == Jpeg
    ensures p.ops[0].x == 0.0 && p.ops[0].y == 0.0
    ensures p.ops[0].width == p.width && p.ops[0].height == p.height
  {
    var scale := PresetOf(level).scale;
    var w: Positive := source.width * scale;
    var h: Positive := source.height * scale;
    Page(w, h, [DrawImage(Image(w, h, Jpeg), 0.0, 0.0, w, h)])
  }

  /** The name the compressed file is tracked under. */
  function TrackedName(name: string): string
  {
    StripPdfSuffix(name) + "_compressed.pdf"
  }

  function Track(file: SourceFile, size: nat): (t: TrackRequest)
    ensures t.action == "compress" && t.fileType == "pdf"
    ensures t.originalName == file.name && t.size == size
  {
    TrackRequest(TrackedName(file.name), file.name, "pdf", "compress", size)
  }

  /** The run: nothing without a file. Otherwise one page per source page in
      order, the progress shown before each page then 100, and one tracking
      request. `savedSize` is the size of the bytes pdf-lib saves; the tracking
      response, failed or not, has no effect on the result. */
  method Compress(file: Option<SourceFile>, sources: seq<PageSize>, level: CompressionLevel, savedSize: nat)
    returns (result: Option<Compressed>, progress: seq<int>, track: Option<TrackRequest>)
    ensures result.None? <==> file.None?
    ensures file.None? ==> progress == [] && track.None?
    ensures file.Some? ==>
      && result.value.originalSize == file.value.size
      && result.value.compressedSize == savedSize
      && result.value.quality == PresetOf(level).quality
      && |result.value.pages| == |sources|
      && (forall i :: 0 <= i < |sources| ==> result.value.pages[i] == RebuiltPage(sources[i], level))
      && |progress| == |sources| + 1
      && (forall i :: 0 <= i < |sources| ==> progress[i] == Progress(i, |sources|))
      && progress[|sources|] == 100
      && track == Some(Track(file.value, savedSize))
  {
    if file.None? {
      return None, [], None;
    }
    var preset := PresetOf(level);
    var numPages := |sources|;
    var doc: seq<Page> := [];
    progress := [];
    var i := 1;
    while i <= numPages
      invariant 1 <= i <= numPages + 1
      invariant |doc| == i - 1 && |progress| == i - 1
      invariant forall j :: 0 <= j < i - 1 ==> doc[j] == RebuiltPage(sources[j], level)
      invariant forall j :: 0 <= j < i - 1 ==> progress[j] == Progress(j, numPages)
    {
      progress := progress + [Progress(i - 1, numPages)];
      var vw: Positive := sources[i - 1].width * preset.scale;
      var vh: Positive := sources[i - 1].height * preset.scale;
      var jpeg := Image(vw, vh, Jpeg);
      var page := NewPage(vw, vh);
      page := AppendOp(page, DrawImage(jpeg, 0.0, 0.0, vw, vh));
      doc := doc + [page];
      i := i + 1;
    }
    progress := progress + [100];
    result := Some(Compressed(doc, preset.quality, file.value.size, savedSize));
    track := Some(Track(file.value, savedSize));
  }

  /** The download: nothing before a result exists; otherwise the name with a
      trailing ".pdf" of any case replaced by "_compressé.pdf". */
  function DownloadName(compressed: Option<Compressed>, file: Option<SourceFile>): (name: Option<string>)
    ensures name.Some? <==> compressed.Some? && file.Some?
  {
    if compressed.None? || file.None? then None
    else Some(StripPdfSuffix(file.value.name) + "_compressé.pdf")
  }

  lemma DownloadNameOf(base: string, c: Compressed, size: nat)
    ensures DownloadName(Some(c), Some(SourceFile(base + ".pdf", size))) == Some(base + "_compressé.pdf")
    ensures DownloadName(Some(c), Some(SourceFile(base + ".PDF", size))) == Some(base + "_compressé.pdf")
    ensures TrackedName(base + ".pdf") == base + "_compressed.pdf"
  {
    StripPdfSuffixOfAppended(base);
    StripPdfSuffixOfAppendedUpper(base);
  }

  /** The sizes in the result panel: bytes below 1 KiB, kibibytes below 1 MiB, mebibytes above. */
  function FormatFileSize(bytes: nat): (t: SizeText)
    ensures t.Octets? <==> bytes < 1024
    ensures t.Ko? <==> 1024 <= bytes < 1024 * 1024
    ensures t.Mo? <==> 1024 * 1024 <= bytes
  {
    if bytes < 1024 then Octets(bytes)
    else if bytes < 1024 * 1024 then Ko(bytes as real / 1024.0)
    else Mo(bytes as real / 1024.0 / 1024.0)
  }

  /** The number shown times its unit is the size itself, and the number shown
      with Ko lies in [1, 1024). */
  lemma FormatFileSizeExact(bytes: nat)
    ensures SizeTextBytes(FormatFileSize(bytes)) == bytes as real
    ensures FormatFileSize(bytes).Ko? ==> 1.0 <= FormatFileSize(bytes).kilo < 1024.0
    ensures FormatFileSize(bytes).Mo? ==> 1.0 <= FormatFileSize(bytes).mega
  {
  }
}
