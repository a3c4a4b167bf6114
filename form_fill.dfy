/** The form-filling page: the edit buffer of extracted entries, the free-text
    annotations placed on the rendered pages, the font-size and colour inputs,
    and the download that writes everything into the document. */
module FormFill {
  import opened Common
  import opened PdfModel
  import opened FormFields

  /** A free-text annotation: `x` and `y` are pixels from the top-left corner of
      the page image, rendered at the zoom factor; `page` is a 0-based index. */
  datatype Annotation = Annotation(
    id: string,
    x: real,
    y: real,
    text: string,
    fontSize: int,
    color: string,
    page: nat)

  /** The document as loaded for the download: its form and its pages. */
  datatype FillSource = FillSource(form: seq<AcroField>, pages: seq<Page>)

  /** What the download produces. */
  datatype FilledPdf = FilledPdf(form: seq<AcroField>, pages: seq<Page>, flattened: bool, fileName: string)

  const DEFAULT_FONT_SIZE: int := 14
  const MIN_FONT_SIZE: int := 6
  const MAX_FONT_SIZE: int := 72

  /** The zoom choices of the toolbar; the page starts at 1.5. */
  const ZOOM_LEVELS: seq<real> := [0.75, 1.0, 1.25, 1.5, 2.0]
  const DEFAULT_ZOOM: real := 1.5

  // ---------------------------------------------------------------- entries

  /** `updated[index] = { ...updated[index], value }` on a copy of the list. */
  function UpdateFieldValue(entries: seq<FormField>, index: nat, value: string): (r: seq<FormField>)
    requires index < |entries|
    ensures |r| == |entries|
    ensures forall j :: 0 <= j < |entries| && j != index ==> r[j] == entries[j]
    ensures r[index].value == value
    ensures r[index].name == entries[index].name && r[index].fieldType == entries[index].fieldType
    ensures r[index].options == entries[index].options && r[index].page == entries[index].page
    ensures r[index].rect == entries[index].rect
  {
    entries[index := entries[index].(value := value)]
  }

  /** Any number of value updates keeps the list an edit of what was extracted,
      which is what the download needs to give the values back. */
  lemma UpdateKeepsEdit(extracted: seq<FormField>, entries: seq<FormField>, index: nat, value: string)
    requires EditOf(extracted, entries) && index < |entries|
    ensures EditOf(extracted, UpdateFieldValue(entries, index, value))
  {
  }

  // ---------------------------------------------------------------- annotations

  /** A click on a page image: in add-text mode one annotation is appended with
      the current text, size and colour, at the click position relative to the
      image; otherwise the list is unchanged. */
  function AddAnnotation(anns: seq<Annotation>, addTextMode: bool, id: string,
                         clientX: real, clientY: real, rect: ClientRect,
                         text: string, fontSize: int, color: string, pageIndex: nat): (r: seq<Annotation>)
    ensures !addTextMode ==> r == anns
    ensures addTextMode ==>
      && |r| == |anns| + 1 && r[..|anns|] == anns
      && r[|anns|] == Annotation(id, clientX - rect.left, clientY - rect.top, text, fontSize, color, pageIndex)
  {
    if !addTextMode then anns
    else anns + [Annotation(id, clientX - rect.left, clientY - rect.top, text, fontSize, color, pageIndex)]
  }

  /** `prev.filter(a => a.id !== id)`. */
  function RemoveAnnotation(anns: seq<Annotation>, id: string): (r: seq<Annotation>)
    ensures |r| <= |anns|
    ensures forall i :: 0 <= i < |r| ==> r[i].id != id
  {
    if anns == [] then []
    else (if anns[0].id == id then [] else [anns[0]]) + RemoveAnnotation(anns[1..], id)
  }

  /** Removal keeps exactly the annotations with another id: each one left
      was in the list, and none with another id is lost. */
  lemma {:induction false} RemoveAnnotationKeeps(anns: seq<Annotation>, id: string)
    ensures forall a :: a in RemoveAnnotation(anns, id) ==> a in anns && a.id != id
    ensures forall a :: a in anns && a.id != id ==> a in RemoveAnnotation(anns, id)
  {
    if anns != [] {
      RemoveAnnotationKeeps(anns[1..], id);
      assert anns == [anns[0]] + anns[1..];
    }
  }

  lemma {:induction false} RemoveAbsent(anns: seq<Annotation>, id: string)
    requires forall i :: 0 <= i < |anns| ==> anns[i].id != id
    ensures RemoveAnnotation(anns, id) == anns
  {
    if anns != [] {
      RemoveAbsent(anns[1..], id);
    }
  }

  lemma {:induction false} RemoveAppend(a: seq<Annotation>, b: seq<Annotation>, id: string)
    ensures RemoveAnnotation(a + b, id) == RemoveAnnotation(a, id) + RemoveAnnotation(b, id)
  {
    if a == [] {
      assert a + b == b;
    } else {
      var head := if a[0].id == id then [] else [a[0]];
      RemoveFirstOfAppend(a, b, id);
      RemoveAppend(a[1..], b, id);
      assert RemoveAnnotation(a, id) == head + RemoveAnnotation(a[1..], id);
      Regroup(head, RemoveAnnotation(a[1..], id), RemoveAnnotation(b, id));
    }
  }

  lemma RemoveFirstOfAppend(a: seq<Annotation>, b: seq<Annotation>, id: string)
    requires a != []
    ensures RemoveAnnotation(a + b, id)
         == (if a[0].id == id then [] else [a[0]]) + RemoveAnnotation(a[1..] + b, id)
  {
    assert (a + b)[1..] == a[1..] + b;
  }

  /** Removing an annotation just added with a fresh id gives the list back. */
  lemma RemoveUndoesAdd(anns: seq<Annotation>, id: string, clientX: real, clientY: real, rect: ClientRect,
                        text: string, fontSize: int, color: string, pageIndex: nat)
    requires forall i :: 0 <= i < |anns| ==> anns[i].id != id
    ensures RemoveAnnotation(AddAnnotation(anns, true, id, clientX, clientY, rect, text, fontSize, color, pageIndex), id)
         == anns
  {
    var added := Annotation(id, clientX - rect.left, clientY - rect.top, text, fontSize, color, pageIndex);
    assert AddAnnotation(anns, true, id, clientX, clientY, rect, text, fontSize, color, pageIndex) == anns + [added];
    assert RemoveAnnotation(anns + [added], id) == anns by {
      RemoveAppend(anns, [added], id);
      RemoveAbsent(anns, id);
      RemoveSingle(added, id);
    }
  }

  lemma RemoveSingle(a: Annotation, id: string)
    requires a.id == id
    ensures RemoveAnnotation([a], id) == []
  {
    assert [a][1..] == [];
  }

  /** `prev.map(a => a.id === id ? { ...a, text } : a)`. */
  function UpdateAnnotationText(anns: seq<Annotation>, id: string, text: string): (r: seq<Annotation>)
    ensures |r| == |anns|
    ensures forall i :: 0 <= i < |anns| && anns[i].id != id ==> r[i] == anns[i]
    ensures forall i :: 0 <= i < |anns| && anns[i].id == id ==> r[i] == anns[i].(text := text)
  {
    seq(|anns|, i requires 0 <= i < |anns| => if anns[i].id == id then anns[i].(text := text) else anns[i])
  }

  /** Editing the text of an annotation and then removing it is the same as removing it. */
  lemma {:induction false} RemoveAfterUpdate(anns: seq<Annotation>, id: string, text: string)
    ensures RemoveAnnotation(UpdateAnnotationText(anns, id, text), id) == RemoveAnnotation(anns, id)
  {
    if anns != [] {
      var u := UpdateAnnotationText(anns, id, text);
      assert u[1..] == UpdateAnnotationText(anns[1..], id, text);
      RemoveAfterUpdate(anns[1..], id, text);
    }
  }

  // ---------------------------------------------------------------- inputs

  /** `Math.max(6, Math.min(72, parseInt(v) || 14))`; `parsed` is `None` when
      `parseInt` gives NaN. Zero is falsy and falls back to 14 as well. */
  function FontSizeInput(parsed: Option<int>): (size: int)
    ensures MIN_FONT_SIZE <= size <= MAX_FONT_SIZE
    ensures parsed.None? || parsed == Some(0) ==> size == DEFAULT_FONT_SIZE
    ensures parsed.Some? && parsed.value != 0 && MIN_FONT_SIZE <= parsed.value <= MAX_FONT_SIZE ==>
      size == parsed.value
    ensures parsed.Some? && parsed.value != 0 && parsed.value < MIN_FONT_SIZE ==> size == MIN_FONT_SIZE
    ensures parsed.Some? && parsed.value > MAX_FONT_SIZE ==> size == MAX_FONT_SIZE
  {
    var n := if parsed.None? || parsed.value == 0 then DEFAULT_FONT_SIZE else parsed.value;
    if n < MIN_FONT_SIZE then MIN_FONT_SIZE else if n > MAX_FONT_SIZE then MAX_FONT_SIZE else n
  }

  /** `s.substring(start, end)` for `start <= end`: both ends are cut to the length. */
  function Substring(s: string, start: nat, end: nat): (r: string)
    requires start <= end
    ensures |r| <= end - start
    ensures start >= |s| ==> r == []
  {
    var a := if start < |s| then start else |s|;
    var b := if end < |s| then end else |s|;
    s[a..b]
  }

  /** A channel number as the fraction of 255 that the PDF colour takes. */
  function ChannelValue(v: int): real
  {
    v as real / 255.0
  }

  function Channel(pair: string): Option<real>
  {
    match ParseHex(pair)
    case None => None
    case Some(v) => Some(ChannelValue(v))
  }

  /** The colour of an annotation: the first "#" removed, then three pairs of
      hex digits, each divided by 255; `None` when a pair is not a number. */
  function ParseColor(color: string): (r: Option<Rgb>)
    ensures |ReplaceFirst(color, "#", "")| <= 4 ==> r.None?
  {
    ParseChannels(ReplaceFirst(color, "#", ""))
  }

  /** The three channels read from the hex digits that follow the "#". */
  function ParseChannels(hex: string): (r: Option<Rgb>)
    ensures |hex| <= 4 ==> r.None?
  {
    var red, green, blue := Channel(Substring(hex, 0, 2)), Channel(Substring(hex, 2, 4)), Channel(Substring(hex, 4, 6));
    if red.Some? && green.Some? && blue.Some? then Some(Rgb(red.value, green.value, blue.value)) else None
  }

  /** What a colour input writes: "#" and two lower-case hex digits per channel. */
  function ColorInputValue(red: nat, green: nat, blue: nat): string
    requires red < 256 && green < 256 && blue < 256
  {
    "#" + (HexByte(red) + HexByte(green) + HexByte(blue))
  }

  /** Every value the colour input can hold reads back as its three channels over 255. */
  lemma ParseColorInput(red: nat, green: nat, blue: nat)
    requires red < 256 && green < 256 && blue < 256
    ensures ParseColor(ColorInputValue(red, green, blue))
         == Some(Rgb(ChannelValue(red), ChannelValue(green), ChannelValue(blue)))
  {
    ParseHexOfByte(red);
    ParseHexOfByte(green);
    ParseHexOfByte(blue);
    ParseColorOfPairs(HexByte(red), HexByte(green), HexByte(blue), red, green, blue);
  }

  /** "#" and three pairs of digits read back as the pairs' numbers over 255. */
  lemma ParseColorOfPairs(r: string, g: string, b: string, red: int, green: int, blue: int)
    requires |r| == 2 && |g| == 2 && |b| == 2
    requires ParseHex(r) == Some(red) && ParseHex(g) == Some(green) && ParseHex(b) == Some(blue)
    ensures ParseColor("#" + (r + g + b)) == Some(Rgb(ChannelValue(red), ChannelValue(green), ChannelValue(blue)))
  {
    ChannelOfNumber(r, red);
    ChannelOfNumber(g, green);
    ChannelOfNumber(b, blue);
    ReplaceLeadingHash(r + g + b);
    PairsOfHex(r, g, b, ChannelValue(red), ChannelValue(green), ChannelValue(blue));
  }

  /** Removing the first "#" of "#" followed by `hex` leaves `hex`. */
  lemma ReplaceLeadingHash(hex: string)
    ensures ReplaceFirst("#" + hex, "#", "") == hex
  {
    var c := "#" + hex;
    assert IndexOf(c, "#") == Some(0) by {
      assert MatchAt(c, "#", 0);
    }
    assert c[1..] == hex;
  }

  /** Three pairs of digits are read back in order. */
  lemma PairsOfHex(r: string, g: string, b: string, red: real, green: real, blue: real)
    requires |r| == 2 && |g| == 2 && |b| == 2
    requires Channel(r) == Some(red) && Channel(g) == Some(green) && Channel(b) == Some(blue)
    ensures ParseChannels(r + g + b) == Some(Rgb(red, green, blue))
  {
    ThirdsOfHex(r, g, b);
  }

  lemma ThirdsOfHex(r: string, g: string, b: string)
    requires |r| == 2 && |g| == 2 && |b| == 2
    ensures Substring(r + g + b, 0, 2) == r
    ensures Substring(r + g + b, 2, 4) == g
    ensures Substring(r + g + b, 4, 6) == b
  {
    var hex := r + g + b;
    assert hex[0..2] == r;
    assert hex[2..4] == g;
    assert hex[4..6] == b;
  }

  /** A pair that parses as `v` is the channel `v` over 255. */
  lemma ChannelOfNumber(pair: string, v: int)
    requires ParseHex(pair) == Some(v)
    ensures Channel(pair) == Some(ChannelValue(v))
  {
  }

  // ---------------------------------------------------------------- download

  /** A point of the page image in screen pixels, as a point of the page in
      PDF points: divided by the zoom in effect at download time, the vertical
      axis flipped to PDF's bottom-left origin. */
  function ScreenToPdf(x: real, y: real, pageHeight: real, zoom: Positive): (p: (real, real))
    ensures p.0 * zoom == x
    ensures (pageHeight - p.1) * zoom == y
  {
    var px, py := x / zoom, y / zoom;
    DivMulCancel(x, zoom);
    DivMulCancel(y, zoom);
    (px, pageHeight - py)
  }

  lemma DivMulCancel(x: real, z: Positive)
    ensures x / z * z == x
  {
  }

  /** The mapping is one-to-one: two clicks drawn at the same place were made at the same place. */
  lemma ScreenToPdfInjective(x1: real, y1: real, x2: real, y2: real, pageHeight: real, zoom: Positive)
    requires ScreenToPdf(x1, y1, pageHeight, zoom) == ScreenToPdf(x2, y2, pageHeight, zoom)
    ensures x1 == x2 && y1 == y2
  {
    var p1 := ScreenToPdf(x1, y1, pageHeight, zoom);
    var p2 := ScreenToPdf(x2, y2, pageHeight, zoom);
    assert p1.0 * zoom == p2.0 * zoom;
    assert (pageHeight - p1.1) * zoom == (pageHeight - p2.1) * zoom;
  }

  /** The text drawn for an annotation, at the mapped position, in its size and colour. */
  function AnnotationOp(a: Annotation, pageHeight: real, zoom: Positive): (op: DrawOp)
    ensures op.DrawText? && op.text == a.text && op.size == a.fontSize as real && op.font == Helvetica
    ensures (op.x, op.y) == ScreenToPdf(a.x, a.y, pageHeight, zoom)
    ensures op.color == ParseColor(a.color)
  {
    var p := ScreenToPdf(a.x, a.y, pageHeight, zoom);
    DrawText(a.text, p.0, p.1, a.fontSize as real, Helvetica, ParseColor(a.color))
  }

  /** The annotation loop: an annotation whose page index is past the last page is skipped. */
  function DrawAnnotations(pages: seq<Page>, anns: seq<Annotation>, zoom: Positive): (r: seq<Page>)
    ensures |r| == |pages|
  {
    if anns == [] then pages
    else
      var cur := DrawAnnotations(pages, anns[..|anns| - 1], zoom);
      var a := anns[|anns| - 1];
      if a.page < |cur| then cur[a.page := AppendOp(cur[a.page], AnnotationOp(a, cur[a.page].height, zoom))]
      else cur
  }

  /** The operations the annotations of page `p` draw on a page of that height, in list order. */
  function OpsOnPage(anns: seq<Annotation>, p: nat, pageHeight: real, zoom: Positive): seq<DrawOp>
  {
    if anns == [] then []
    else
      var a := anns[|anns| - 1];
      OpsOnPage(anns[..|anns| - 1], p, pageHeight, zoom)
        + (if a.page == p then [AnnotationOp(a, pageHeight, zoom)] else [])
  }

  /** Each page keeps its size and content and gains its own annotations, in order. */
  lemma {:induction false} DrawAnnotationsPage(pages: seq<Page>, anns: seq<Annotation>, zoom: Positive, p: nat)
    requires p < |pages|
    ensures DrawAnnotations(pages, anns, zoom)[p]
         == pages[p].(ops := pages[p].ops + OpsOnPage(anns, p, pages[p].height, zoom))
  {
    if anns == [] {
      assert pages[p].ops + [] == pages[p].ops;
    } else {
      var init, a := anns[..|anns| - 1], anns[|anns| - 1];
      DrawAnnotationsPage(pages, init, zoom, p);
      if a.page == p {
        AppendAfter(pages[p], OpsOnPage(init, p, pages[p].height, zoom), AnnotationOp(a, pages[p].height, zoom));
      }
    }
  }

  lemma AppendAfter(page: Page, before: seq<DrawOp>, op: DrawOp)
    ensures AppendOp(page.(ops := page.ops + before), op) == page.(ops := page.ops + (before + [op]))
  {
    assert page.ops + before + [op] == page.ops + (before + [op]);
  }

  method DrawAnnotationsLoop(pages: seq<Page>, anns: seq<Annotation>, zoom: Positive) returns (r: seq<Page>)
    ensures r == DrawAnnotations(pages, anns, zoom)
  {
    r := pages;
    var i := 0;
    while i < |anns|
      invariant 0 <= i <= |anns|
      invariant r == DrawAnnotations(pages, anns[..i], zoom)
    {
      assert anns[..i + 1][..i] == anns[..i];
      var a := anns[i];
      if a.page < |r| {
        var page := r[a.page];
        var pdf := ScreenToPdf(a.x, a.y, page.height, zoom);
        r := r[a.page := AppendOp(page, DrawText(a.text, pdf.0, pdf.1, a.fontSize as real, Helvetica, ParseColor(a.color)))];
      }
      i := i + 1;
    }
    assert anns[..|anns|] == anns;
  }

  /** The download name as the page computes it: the first ".pdf" in the name,
      in lower case only, becomes "_rempli.pdf". */
  function FilledFileNameAsWritten(fileName: Option<string>): (r: string)
    ensures fileName.None? ==> r == "document_rempli.pdf"
    ensures fileName.Some? && IndexOf(fileName.value, ".pdf").None? ==> r == fileName.value
    ensures fileName.Some? && IndexOf(fileName.value, ".pdf").Some? ==> |r| == |fileName.value| + 7
  {
    match fileName
    case None => "document_rempli.pdf"
    case Some(n) => ReplaceFirst(n, ".pdf", "_rempli.pdf")
  }

  /** A file named "Rapport.PDF" is offered for download under its own name, unchanged. */
  lemma FilledFileNameAsWrittenKeepsUpperCase()
    ensures FilledFileNameAsWritten(Some("Rapport.PDF")) == "Rapport.PDF"
  {
    var s: string := "Rapport.PDF";
    forall j: nat | j + 4 <= |s| ensures !MatchAt(s, ".pdf", j) {
      assert s[j..j + 4][1] == s[j + 1];
      assert s[j..j + 4][0] == s[j];
    }
    assert IndexOf(s, ".pdf").None?;
  }

  /** A name ending in ".pdf.pdf", such as "a.pdf.pdf", has its inner ".pdf"
      replaced and keeps the outer one: "a_rempli.pdf.pdf". */
  lemma FilledFileNameAsWrittenInnerOccurrence(base: string)
    requires '.' !in base
    ensures FilledFileNameAsWritten(Some(base + ".pdf" + ".pdf")) == base + "_rempli.pdf" + ".pdf"
  {
    var s := base + ".pdf" + ".pdf";
    assert MatchAt(s, ".pdf", |base|) by {
      assert s[|base|..|base| + 4] == ".pdf";
    }
    forall j | 0 <= j < |base| ensures !MatchAt(s, ".pdf", j) {
      assert s[j] == base[j];
    }
    ReplaceFirstAt(s, ".pdf", "_rempli.pdf", |base|);
    assert s[..|base|] == base && s[|base| + 4..] == ".pdf";
  }

  /** The name the rest of the model uses: the base name, with one trailing
      ".pdf" in any letter case removed, followed by "_rempli.pdf". */
  function FilledFileName(fileName: Option<string>): (r: string)
    ensures |r| >= |"_rempli.pdf"| && r[|r| - |"_rempli.pdf"|..] == "_rempli.pdf"
    ensures fileName.None? ==> r == "document_rempli.pdf"
  {
    BaseName(fileName) + "_rempli.pdf"
  }

  lemma FilledFileNameOf(base: string)
    ensures FilledFileName(Some(base + ".pdf")) == base + "_rempli.pdf"
    ensures FilledFileName(Some(base + ".PDF")) == base + "_rempli.pdf"
  {
    StripPdfSuffixOfAppended(base);
    StripPdfSuffixOfAppendedUpper(base);
  }

  /** On the usual name, one lower-case ".pdf" at the end and no other dot,
      the name as written and the corrected name agree. */
  lemma FilledFileNamesAgree(base: string)
    requires '.' !in base
    ensures FilledFileNameAsWritten(Some(base + ".pdf")) == base + "_rempli.pdf"
    ensures FilledFileName(Some(base + ".pdf")) == base + "_rempli.pdf"
  {
    var s := base + ".pdf";
    assert MatchAt(s, ".pdf", |base|) by {
      assert s[|base|..|base| + 4] == ".pdf";
    }
    forall j | 0 <= j < |base| ensures !MatchAt(s, ".pdf", j) {
      assert s[j] == base[j];
    }
    assert IndexOf(s, ".pdf") == Some(|base|);
    assert s[..|base|] == base && s[|base| + 4..] == [];
    FilledFileNameOf(base);
  }

  /** The download: nothing without loaded bytes; otherwise every entry is
      written into the form (a failing one is skipped), every annotation is
      drawn on its page, the form is flattened when pdf-lib manages to, and the
      result is named after the file as the page names it. */
  method Download(source: Option<FillSource>, fileName: Option<string>, entries: seq<FormField>,
                  anns: seq<Annotation>, zoom: Positive, flattenSucceeds: bool)
    returns (r: Option<FilledPdf>)
    ensures r.None? <==> source.None?
    ensures r.Some? ==>
      && r.value.form == ApplyAll(source.value.form, entries)
      && r.value.pages == DrawAnnotations(source.value.pages, anns, zoom)
      && r.value.flattened == flattenSucceeds
      && r.value.fileName == FilledFileNameAsWritten(fileName)
  {
    if source.None? {
      return None;
    }
    var form := ApplyFields(source.value.form, entries);
    var pages := DrawAnnotationsLoop(source.value.pages, anns, zoom);
    return Some(FilledPdf(form, pages, flattenSucceeds, FilledFileNameAsWritten(fileName)));
  }

  /** The form as the download writes it, before flattening, reads back as
      every entry the user edited, settled with its edited value (a text too
      long for its field keeps the value it was read with); the pages carry
      their annotations. Once flattening succeeds the saved file has no fields
      left to read. */
  lemma DownloadKeepsEdits(src: FillSource, annots: seq<bool>, entries: seq<FormField>,
                           anns: seq<Annotation>, zoom: Positive, p: nat)
    requires UniqueNames(src.form) && EditOf(ExtractAll(src.form, annots), entries)
    requires p < |src.pages|
    ensures ExtractAll(ApplyAll(src.form, entries), annots)
         == seq(|entries|, j requires 0 <= j < |entries| =>
              Settle(ExtractAll(src.form, annots)[j], entries[j].value, LimitOf(src.form, entries[j].name)))
    ensures DrawAnnotations(src.pages, anns, zoom)[p]
         == src.pages[p].(ops := src.pages[p].ops + OpsOnPage(anns, p, src.pages[p].height, zoom))
  {
    ApplyEditsThenExtract(src.form, annots, entries);
    DrawAnnotationsPage(src.pages, anns, zoom, p);
  }

  // ---------------------------------------------------------------- page state

  /** The state of the form-filling page. `extracted` is the list read when the
      file was opened, which the edits only change in values. */
  class FillEditor {
    var formFields: seq<FormField>
    var annotations: seq<Annotation>
    var addTextMode: bool
    var newText: string
    var newFontSize: int
    var newColor: string
    var zoom: Positive
    var currentPage: nat
    var totalPages: nat
    ghost var extracted: seq<FormField>

    ghost predicate Valid()
      reads this
    {
      && MIN_FONT_SIZE <= newFontSize <= MAX_FONT_SIZE
      && (forall i :: 0 <= i < |annotations| ==> MIN_FONT_SIZE <= annotations[i].fontSize <= MAX_FONT_SIZE)
      && EditOf(extracted, formFields)
      && (currentPage < totalPages || currentPage == 0)
    }

    constructor ()
      ensures Valid()
      ensures formFields == [] && annotations == [] && !addTextMode && newText == "Texte"
      ensures newFontSize == DEFAULT_FONT_SIZE && newColor == "#000000" && zoom == DEFAULT_ZOOM
      ensures currentPage == 0 && totalPages == 0
    {
      formFields := [];
      annotations := [];
      addTextMode := false;
      newText := "Texte";
      newFontSize := DEFAULT_FONT_SIZE;
      newColor := "#000000";
      zoom := DEFAULT_ZOOM;
      currentPage := 0;
      totalPages := 0;
      extracted := [];
    }

    /** A new file: entries read from its form, no annotation, first page. */
    method OpenFile(form: seq<AcroField>, annots: seq<bool>, pageCount: nat)
      requires Valid()
      modifies this
      ensures Valid()
      ensures formFields == ExtractAll(form, annots) && annotations == [] && currentPage == 0
      ensures totalPages == pageCount
      ensures addTextMode == old(addTextMode) && newText == old(newText) && newFontSize == old(newFontSize)
      ensures newColor == old(newColor) && zoom == old(zoom)
    {
      annotations := [];
      currentPage := 0;
      formFields := ExtractFormFields(form, annots);
      extracted := formFields;
      totalPages := pageCount;
    }

    method EditField(index: nat, value: string)
      requires Valid() && index < |formFields|
      modifies this`formFields
      ensures Valid() && formFields == UpdateFieldValue(old(formFields), index, value)
    {
      UpdateKeepsEdit(extracted, formFields, index, value);
      formFields := UpdateFieldValue(formFields, index, value);
    }

    method SetAddTextMode(on: bool)
      requires Valid()
      modifies this`addTextMode
      ensures Valid() && addTextMode == on
    {
      addTextMode := on;
    }

    /** The font-size input, with the value `parseInt` read from it. */
    method SetFontSize(parsed: Option<int>)
      requires Valid()
      modifies this`newFontSize
      ensures Valid() && newFontSize == FontSizeInput(parsed)
    {
      newFontSize := FontSizeInput(parsed);
    }

    method SetText(text: string)
      requires Valid()
      modifies this`newText
      ensures Valid() && newText == text
    {
      newText := text;
    }

    method SetColor(color: string)
      requires Valid()
      modifies this`newColor
      ensures Valid() && newColor == color
    {
      newColor := color;
    }

    method SetZoom(z: Positive)
      requires Valid() && z in ZOOM_LEVELS
      modifies this`zoom
      ensures Valid() && zoom == z
    {
      zoom := z;
    }

    /** The previous-page button: one page back, never before the first. */
    method PreviousPage()
      requires Valid()
      modifies this`currentPage
      ensures Valid() && currentPage == if old(currentPage) == 0 then 0 else old(currentPage) - 1
    {
      currentPage := if currentPage == 0 then 0 else currentPage - 1;
    }

    /** The next-page button: one page on, never past the last. */
    method NextPage()
      requires Valid() && totalPages > 0
      modifies this`currentPage
      ensures Valid()
      ensures currentPage == if old(currentPage) + 1 <= totalPages - 1 then old(currentPage) + 1 else totalPages - 1
    {
      currentPage := if currentPage + 1 <= totalPages - 1 then currentPage + 1 else totalPages - 1;
    }

    /** A page thumbnail: that page becomes the current one. */
    method GoToPage(index: nat)
      requires Valid() && index < totalPages
      modifies this`currentPage
      ensures Valid() && currentPage == index
    {
      currentPage := index;
    }

    /** A click on the displayed page: in text mode, an annotation on the current page. */
    method CanvasClick(id: string, clientX: real, clientY: real, rect: ClientRect)
      requires Valid()
      modifies this`annotations
      ensures Valid()
      ensures annotations == AddAnnotation(old(annotations), addTextMode, id, clientX, clientY, rect,
                                           newText, newFontSize, newColor, currentPage)
    {
      annotations := AddAnnotation(annotations, addTextMode, id, clientX, clientY, rect,
                                   newText, newFontSize, newColor, currentPage);
    }

    method RemoveAnnotationById(id: string)
      requires Valid()
      modifies this`annotations
      ensures Valid() && annotations == RemoveAnnotation(old(annotations), id)
    {
      RemoveAnnotationKeeps(annotations, id);
      annotations := RemoveAnnotation(annotations, id);
    }

    method EditAnnotationText(id: string, text: string)
      requires Valid()
      modifies this`annotations
      ensures Valid() && annotations == UpdateAnnotationText(old(annotations), id, text)
    {
      annotations := UpdateAnnotationText(annotations, id, text);
    }

    /** The download button: the page's entries, its annotations and the zoom
        in effect at that moment go to `Download`. */
    method DownloadFilled(source: Option<FillSource>, fileName: Option<string>, flattenSucceeds: bool)
      returns (r: Option<FilledPdf>)
      ensures r.None? <==> source.None?
      ensures r.Some? ==>
        && r.value.form == ApplyAll(source.value.form, formFields)
        && r.value.pages == DrawAnnotations(source.value.pages, annotations, zoom)
        && r.value.flattened == flattenSucceeds
        && r.value.fileName == FilledFileNameAsWritten(fileName)
    {
      r := Download(source, fileName, formFields, annotations, zoom, flattenSucceeds);
    }
  }
}
