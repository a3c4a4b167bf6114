# SwaPDF, modelled in Dafny

SwaPDF is a Next.js web application of PDF tools. This project models its core:

- the five tool pages: sign a PDF, fill a form, images to PDF, PDF to images, compress a PDF;
- the upload and signature-drawing components;
- the dashboard's display rules;
- the API routes `/api/usage`, `/api/documents`, `/api/signatures`, `/api/auth/register` and `/api/auth/login`.

The model has one module per source file. Two modules serve all of them:

- `Common`: clamping, `Math.round`, progress percentages, decimal and hexadecimal text, and removing the ".pdf" suffix.
- `PdfModel`: a PDF document as a list of pages. Each page has a size in points and the drawing operations added to it.

Each page component keeps its React state in one of these forms:

- **A Dafny class:** `SignPdf.SignEditor`, `FormFill.FillEditor`, `FileUpload.Uploader` or `SignaturePad.Pad`. Each event handler is a method on the class. Its contract gives the new state in terms of pure functions on the lists being edited. The lemmas are about those functions.
- **A method with a loop:** the export loops (signing, form filling, the image conversions, compression). Each is proved equal to a recursive function of its inputs.
- **A pure function:** the rest.

The API routes work against three Prisma tables, modelled as the fields of class `Store.Database`:

- Each route's decision is a pure function from the request and the tables to a response, plus the row to insert or delete.
- A module-level method that takes the `Database` (`DocumentsRoute.Post`, `SignaturesRoute.Post`, `SignaturesRoute.Delete`, `RegisterRoute.Register`) applies that decision to its tables.
- The database's uniqueness guarantees (unique ids and unique e-mails) are the class invariant.

These are parameters, never computed:

- the clock (`now`, the start of the day);
- fresh ids;
- bcrypt's `hash` and `compare`;
- JWT signing;
- whether pdf-lib's `form.flatten()` succeeds.

## Model

| member | source | states |
|---|---|---|
| `Common.Clamp` | app/sign-pdf/page.tsx:308-309 | `Math.max(lo, Math.min(v, hi))` lies in [lo, hi], equals `v` inside the range and the nearer bound outside it |
| `Common.Round` | app/compress-pdf/page.tsx:102 | `Math.round` returns the integer within half a unit of its argument, rounding halves up |
| `Common.Progress` | app/image-to-pdf/page.tsx:258 | the progress percentage is between 0 and 100, 0 before the first item and 100 at the end |
| `Common.ProgressMonotone` | app/pdf-to-image/page.tsx:99 | progress never goes down as more pages are done |
| `Common.NatToString` | app/pdf-to-image/page.tsx:154 | `String(n)` is a non-empty string of digits, one digit exactly for n < 10 and two for 10 ≤ n < 100 |
| `Common.DecimalRoundTrip` | app/pdf-to-image/page.tsx:154 | reading back the decimal text of `n` gives `n` |
| `Common.NatToStringInjective` | app/pdf-to-image/page.tsx:179 | distinct numbers have distinct decimal texts |
| `Common.PadTwo` | app/sign-pdf/page.tsx:292-297 | `padStart(2, "0")` gives digits only, exactly two for values below 100 |
| `Common.PadTwoRoundTrip` | app/sign-pdf/page.tsx:292-297 | the padded field reads back as the same number |
| `Common.HexPrefix` | app/pdf-fill/page.tsx:323-325 | the longest prefix made of hexadecimal digits, followed by a non-digit or the end |
| `Common.TrimStart` | app/pdf-fill/page.tsx:323-325 | the white space `parseInt` skips: what remains is a suffix, everything dropped is ECMAScript white space, and the rest starts with a character that is not |
| `Common.ParseUnsigned` | app/pdf-fill/page.tsx:323-325 | after the sign, an optional "0x" or "0X" and then the leading hex digits; never negative, and the leading digits when the text starts with one |
| `Common.ParseSigned` | app/pdf-fill/page.tsx:323-325 | without a leading "-" or "+" the text is read unsigned |
| `Common.ParseHex` | app/pdf-fill/page.tsx:323-325 | `parseInt(s, 16)` is NaN (`None`) for the empty string, and a string that starts with a hexadecimal digit (and not with "0x") reads as its leading digits |
| `Common.ParseHexSkipsWhiteSpace` | app/pdf-fill/page.tsx:323-325 | leading white space does not change the result |
| `Common.ParseHexSign` | app/pdf-fill/page.tsx:323-325 | a "+" changes nothing and a "-" negates the number that follows; NaN stays NaN |
| `Common.ParseHexRadixPrefix` | app/pdf-fill/page.tsx:323-325 | "0x" and "0X" are skipped, and NaN follows when no hex digit comes after them |
| `Common.ParseHexDigitF` | app/pdf-fill/page.tsx:323-325 | "f" reads as 15 |
| `Common.ParseHexSpaceExample` | app/pdf-fill/page.tsx:323-325 | " f" reads as 15 |
| `Common.ParseHexRadixExample` | app/pdf-fill/page.tsx:323-325 | "0x1f" reads as 31 |
| `Common.HexByte` | app/pdf-fill/page.tsx:639-642 | a colour channel is written as two hexadecimal digits |
| `Common.ParseHexByte` | app/pdf-fill/page.tsx:323-325 | parsing the two digits written for a channel, followed by a non-digit, gives the channel back |
| `Common.ParseHexOfByte` | app/pdf-fill/page.tsx:323-325 | the two digits written for a channel, on their own, read back as the channel |
| `Common.IndexOf` | app/pdf-fill/page.tsx:350 | the first position where the pattern occurs, or `None` when it occurs nowhere |
| `Common.ReplaceFirst` | app/pdf-fill/page.tsx:350 | `String.replace` with a string pattern leaves the text unchanged when the pattern does not occur |
| `Common.ReplaceFirstAt` | app/pdf-fill/page.tsx:350 | when the pattern first occurs at a position, `String.replace` puts the replacement there and keeps the text on both sides |
| `Common.StripPdfSuffix` | app/sign-pdf/page.tsx:570 | `replace(/\.pdf$/i, "")` yields a prefix of the name: four characters shorter when the name ends in ".pdf" in any letter case, the whole name otherwise |
| `Common.StripPdfSuffixOfAppended` | app/sign-pdf/page.tsx:570 | stripping undoes appending ".pdf" to any base |
| `Common.StripPdfSuffixOfAppendedUpper` | app/compress-pdf/page.tsx:214 | stripping undoes appending ".PDF" as well, because the match ignores case |
| `Common.BaseName` | app/pdf-to-image/page.tsx:151-153 | the stripped file name, or "document" when there is no file |
| `PdfModel.AppendOp` | app/sign-pdf/page.tsx:545-550 | a drawing call keeps the page size and adds exactly one operation at the end |
| `SignPdf.DefaultWidth` | app/sign-pdf/page.tsx:312 | a stamp is placed 15% of the page wide, a signature 20% |
| `SignPdf.PlaceAnchor` | app/sign-pdf/page.tsx:308-309 | the item's corner is offset from the click by (0.1, 0.025) and clamped to [0, 0.8] × [0, 0.9] |
| `SignPdf.TimestampLabel` | app/sign-pdf/page.tsx:290-302 | with no timestamp entitlement the label is empty; otherwise it starts with "Signé le " or "Certifié le " according to the kind |
| `SignPdf.DateTextLayout` | app/sign-pdf/page.tsx:292-301 | the date text is "dd/mm/yyyy à hh:mm:ss": each padded field and the separators sit at fixed positions |
| `SignPdf.JoinedLayout` | app/sign-pdf/page.tsx:292-301 | in "dd/mm/yyyy à hh:mm:ss" built from fields of those widths, each field and separator sits at its fixed offset |
| `SignPdf.DateTextFields` | app/sign-pdf/page.tsx:292-301 | the date text is 21 characters long, with separators at fixed places, and each field reads back as day, month + 1, year, hours, minutes, seconds |
| `SignPdf.YearHasFourDigits` | app/sign-pdf/page.tsx:296 | a four-digit year is written with four characters |
| `SignPdf.NewItem` | app/sign-pdf/page.tsx:304-313 | the created item is in bounds, on the current page, with the active image, the default width, the clamped anchor and the timestamp label |
| `SignPdf.FindItem` | app/sign-pdf/page.tsx:331 | `find` returns the first item with the id, or none when no item has it |
| `SignPdf.MoveSelected` | app/sign-pdf/page.tsx:362-371 | a drag moves only the selected item, to its start position plus the pointer delta clamped to [0, 0.95]; all else is unchanged |
| `SignPdf.ResizeSelected` | app/sign-pdf/page.tsx:372-377 | a resize changes only the selected item's width, clamped to [0.05, 0.7] |
| `SignPdf.SetWidth` | app/sign-pdf/page.tsx:1575-1586 | the slider sets the width of the item with that id to n/100 and changes nothing else |
| `SignPdf.RemoveItem` | app/sign-pdf/page.tsx:437-443 | removal keeps exactly the items with another id |
| `SignPdf.RemoveItemDistributes` | app/sign-pdf/page.tsx:439 | filtering works item by item, so the kept items stay in order |
| `SignPdf.RemoveItemExactlyOne` | app/sign-pdf/page.tsx:439 | with unique ids, removing the id at position k removes exactly that position |
| `SignPdf.RemoveItemKeepsAll` | app/sign-pdf/page.tsx:439 | removing an absent id changes nothing |
| `SignPdf.RemoveItemIdempotent` | app/sign-pdf/page.tsx:439 | removing the same id twice is the same as removing it once |
| `SignPdf.SignEditor.constructor` | app/sign-pdf/page.tsx:113-146 | the initial state: no items, no selection, page 1, not placing, no timestamp entitlement |
| `SignPdf.SignEditor.SetEntitlement` | app/sign-pdf/page.tsx:173-184 | the timestamp entitlement is the one read from the usage route |
| `SignPdf.SignEditor.OpenFile` | app/sign-pdf/page.tsx:218-226 | a new file resets the page to 1 and clears the items and the selection |
| `SignPdf.SignEditor.UseItem` | app/sign-pdf/page.tsx:399-403 | choosing an image to place switches placing mode on with that image and kind |
| `SignPdf.SignEditor.CanvasClick` | app/sign-pdf/page.tsx:278-321 | a click that is ignored changes nothing; otherwise exactly one new item is appended and selected, and placing mode ends |
| `SignPdf.SignEditor.ItemMouseDown` | app/sign-pdf/page.tsx:327-351 | pressing on a known item selects it and records the pointer and the item's geometry as the drag origin; an unknown id changes nothing, the drag origin included |
| `SignPdf.SignEditor.MouseMove` | app/sign-pdf/page.tsx:355-380 | the items become the drag or resize result relative to the recorded origin, or stay unchanged when neither is in progress |
| `SignPdf.SignEditor.MouseUp` | app/sign-pdf/page.tsx:382-385 | releasing ends both dragging and resizing |
| `SignPdf.SignEditor.SlideWidth` | app/sign-pdf/page.tsx:1575-1586 | the slider applies `SetWidth` and keeps every item in bounds |
| `SignPdf.SignEditor.RemovePlaced` | app/sign-pdf/page.tsx:437-443 | the item is removed, and the selection is cleared only when it was that item |
| `SignExport.ExportBox` | app/sign-pdf/page.tsx:538-543 | the drawn box has the item's width share of the page, the image's aspect ratio, and its top at the item's vertical share measured from the top |
| `SignExport.ExportBoxInverse` | app/sign-pdf/page.tsx:538-543 | the box converts back to the item's percentages exactly |
| `SignExport.ExportBoxOnPage` | app/sign-pdf/page.tsx:538-543 | an in-bounds item starts on the page horizontally and its top edge is on the page |
| `SignExport.LabelSize` | app/sign-pdf/page.tsx:554 | the label's font size is between 7 and 12 |
| `SignExport.ItemOps` | app/sign-pdf/page.tsx:545-562 | each item draws its image in its box, then its label (grey Helvetica, 3 points under the image) only when the label is not empty |
| `SignExport.OpsOf` | app/sign-pdf/page.tsx:525-563 | a list of items draws at least one operation per item |
| `SignExport.OpsOfAppend` | app/sign-pdf/page.tsx:525-563 | the operations of two lists of items are those of the first followed by those of the second |
| `SignExport.OnPage` | app/sign-pdf/page.tsx:510-515 | the items of page k, in placement order |
| `SignExport.KeyIndex` | app/sign-pdf/page.tsx:512 | `Map.get` finds the entry with that page number, or none |
| `SignExport.AddToGroups` | app/sign-pdf/page.tsx:512-514 | adding an item to the grouping adds at most one entry |
| `SignExport.AddToGroupsSpec` | app/sign-pdf/page.tsx:512-514 | adding an item keeps one non-empty entry per page and appends the item to its own page's list only |
| `SignExport.GroupByPage` | app/sign-pdf/page.tsx:510-515 | the grouping has at most one entry per item |
| `SignExport.GroupByPageSpec` | app/sign-pdf/page.tsx:510-515 | the grouping has one entry per page, and each entry lists exactly that page's items in order |
| `SignExport.RenderGroup` | app/sign-pdf/page.tsx:519-521 | drawing one entry keeps the page count, skipping a page number with no page |
| `SignExport.RenderAll` | app/sign-pdf/page.tsx:517-564 | drawing all entries keeps the page count |
| `SignExport.RenderAllPage` | app/sign-pdf/page.tsx:517-564 | page p ends up with its own operations followed by those of the items placed on page p + 1 |
| `SignExport.SignedFileName` | app/sign-pdf/page.tsx:570-571 | the download is named after the file without its ".pdf", plus "_signe.pdf" |
| `SignExport.SignedFileNameOf` | app/sign-pdf/page.tsx:570-571 | "x.pdf" is downloaded as "x_signe.pdf" |
| `SignExport.GroupItems` | app/sign-pdf/page.tsx:510-515 | the grouping loop builds one entry per page, each listing exactly that page's items in order |
| `SignExport.DrawItems` | app/sign-pdf/page.tsx:525-563 | the inner loop keeps the page size and appends the operations of the entry's items in order |
| `SignExport.DrawItem` | app/sign-pdf/page.tsx:525-563 | one item adds its image in its box, then its timestamp label when it has one, and leaves the page size alone |
| `SignExport.Download` | app/sign-pdf/page.tsx:499-577 | there is no output without a file or items; otherwise every page gains the operations of exactly its own items, and the name is the signed file name |
| `FormFields.FirstAnnotsPage` | app/pdf-fill/page.tsx:138-144 | the first page with an /Annots entry, or 0 when no page has one |
| `FormFields.Classify` | app/pdf-fill/page.tsx:147-174 | text, checkbox and dropdown fields become entries with their name, page and rectangle; every other kind is skipped |
| `FormFields.ExtractAll` | app/pdf-fill/page.tsx:123-175 | the entries of a form, at most one per field |
| `FormFields.FindAnnotsPage` | app/pdf-fill/page.tsx:136-144 | the page scan with `break` returns the first page with annotations |
| `FormFields.ExtractFormFields` | app/pdf-fill/page.tsx:119-178 | the extraction loop returns exactly the classified fields, in form order |
| `FormFields.ExtractAllAppend` | app/pdf-fill/page.tsx:123-175 | extracting a concatenated form extracts each part |
| `FormFields.ExtractOwner` | app/pdf-fill/page.tsx:123-175 | every entry comes from one field of the form, and the entries before it come from the fields before that field |
| `FormFields.ExtractReplace` | app/pdf-fill/page.tsx:123-175 | replacing an editable field by another editable one replaces exactly its entry |
| `FormFields.ExtractSplit` | app/pdf-fill/page.tsx:123-175 | an editable field between two parts of a form contributes exactly its own entry |
| `FormFields.ExtractSingle` | app/pdf-fill/page.tsx:123-175 | an editable field on its own extracts to its one entry |
| `FormFields.ExtractedPages` | app/pdf-fill/page.tsx:127-145 | an entry with a widget is on the first annotated page; an entry without a widget is on page 0 |
| `FormFields.ExtractedCheckboxes` | app/pdf-fill/page.tsx:155-162 | an extracted checkbox reads "true" or "false" |
| `FormFields.FindByName` | app/pdf-fill/page.tsx:288-298 | `getField` finds a field with that name, or none when no field has it |
| `FormFields.SetValue` | app/pdf-fill/page.tsx:287-302 | a value is written exactly when the entry's type matches the field's class and, for a text, it is no longer than the field's /MaxLen; otherwise pdf-lib throws. The field keeps its class and limit |
| `FormFields.ApplyField` | app/pdf-fill/page.tsx:286-305 | writing one entry keeps every field's name, widgets and /MaxLen and changes no field with another name |
| `FormFields.ApplyAll` | app/pdf-fill/page.tsx:285-306 | the write-back loop keeps the form's length and every field's name, widgets and /MaxLen, and a failing field is skipped |
| `FormFields.ApplyAllSnoc` | app/pdf-fill/page.tsx:285-306 | one more entry is one more loop iteration, with a failure caught |
| `FormFields.SameLimits` | app/pdf-fill/page.tsx:287-289 | forms whose fields carry the same names and /MaxLen give every name the same limit |
| `FormFields.ApplyAllKeepsLimits` | app/pdf-fill/page.tsx:285-306 | writing values never changes the /MaxLen of the field a name looks up |
| `FormFields.ApplyFields` | app/pdf-fill/page.tsx:285-306 | the loop computes `ApplyAll` |
| `FormFields.ApplyUnknownName` | app/pdf-fill/page.tsx:288 | an entry naming no field fails, so it is skipped |
| `FormFields.SetThenClassify` | app/pdf-fill/page.tsx:147-174 | writing a value into a field of the entry's class fails exactly for a text over the field's /MaxLen; a write that succeeds reads back as the entry settled with that value, and a refused one leaves the entry as it was |
| `FormFields.ApplyOneEdit` | app/pdf-fill/page.tsx:285-306 | with unique names, writing one edited entry fails exactly for a text over its field's /MaxLen, and re-extraction changes exactly that entry, to its settled value (its old one when refused) |
| `FormFields.EditOwnedField` | app/pdf-fill/page.tsx:286-305 | writing through the name of the field an entry comes from settles exactly that entry |
| `FormFields.ApplyPrefix` | app/pdf-fill/page.tsx:285-306 | after the first i edits are written back, re-extraction shows exactly those i edits |
| `FormFields.ApplyPrefixStep` | app/pdf-fill/page.tsx:285-306 | writing the i-th edit after the first i-1 extends the re-extracted result by exactly that edit |
| `FormFields.ApplyEditStep` | app/pdf-fill/page.tsx:285-306 | writing one shown entry with a new value settles exactly that entry of the re-extraction |
| `FormFields.ApplyAllKeepsNames` | app/pdf-fill/page.tsx:285-306 | writing values back never makes two fields share a name |
| `FormFields.ApplyEditsThenExtract` | app/pdf-fill/page.tsx:285-306 | writing back an edited list of entries and extracting again gives each entry with its edited value, settled; a text longer than its field's /MaxLen keeps the value it was read with |
| `FormFields.ApplyExtractedIsFixpoint` | app/pdf-fill/page.tsx:285-306 | downloading without edits writes back exactly what was read |
| `FormFill.UpdateFieldValue` | app/pdf-fill/page.tsx:219-228 | only the value of entry `index` changes; its name, type, options, page and rectangle stay the same |
| `FormFill.UpdateKeepsEdit` | app/pdf-fill/page.tsx:219-228 | editing keeps the list an edit of the extracted entries |
| `FormFill.AddAnnotation` | app/pdf-fill/page.tsx:232-254 | outside text mode nothing changes; in text mode exactly one annotation is appended at the click position relative to the page box |
| `FormFill.RemoveAnnotation` | app/pdf-fill/page.tsx:258-260 | no annotation left has the removed id, and the list does not grow |
| `FormFill.RemoveAnnotationKeeps` | app/pdf-fill/page.tsx:258-260 | removal keeps exactly the annotations with another id: each one left was in the list, and none with another id is lost |
| `FormFill.RemoveAbsent` | app/pdf-fill/page.tsx:259 | removing an absent id changes nothing |
| `FormFill.RemoveAppend` | app/pdf-fill/page.tsx:259 | removal works annotation by annotation, keeping the order |
| `FormFill.RemoveUndoesAdd` | app/pdf-fill/page.tsx:251-259 | removing an annotation just added under a fresh id gives the list back |
| `FormFill.RemoveSingle` | app/pdf-fill/page.tsx:259 | removing the only annotation leaves none |
| `FormFill.UpdateAnnotationText` | app/pdf-fill/page.tsx:264-268 | only annotations with the id get the new text; everything else is unchanged |
| `FormFill.RemoveAfterUpdate` | app/pdf-fill/page.tsx:258-268 | editing an annotation's text and then removing it is the same as removing it |
| `FormFill.FontSizeInput` | app/pdf-fill/page.tsx:624-627 | the size is in [6, 72]: NaN or 0 give 14, other values are clamped |
| `FormFill.Substring` | app/pdf-fill/page.tsx:323-325 | `substring` returns at most `end - start` characters, and none when it starts at or past the end |
| `FormFill.ParseColor` | app/pdf-fill/page.tsx:322-325 | a colour with at most four characters left once its "#" is removed has a NaN channel (`None`) |
| `FormFill.ParseChannels` | app/pdf-fill/page.tsx:323-325 | at most four hex characters give a NaN channel (`None`) |
| `FormFill.ParseColorInput` | app/pdf-fill/page.tsx:322-325 | every colour the input can produce parses back to its three channels divided by 255 |
| `FormFill.ParseColorOfPairs` | app/pdf-fill/page.tsx:322-325 | "#" followed by three pairs that read as numbers parses to those numbers divided by 255 |
| `FormFill.ReplaceLeadingHash` | app/pdf-fill/page.tsx:322 | removing the first "#" of "#" and `hex` leaves `hex` |
| `FormFill.PairsOfHex` | app/pdf-fill/page.tsx:323-325 | three pairs whose channels are known are read back in order as red, green and blue |
| `FormFill.ThirdsOfHex` | app/pdf-fill/page.tsx:323-325 | `substring(0, 2)`, `(2, 4)` and `(4, 6)` of three pairs are the three pairs |
| `FormFill.ChannelOfNumber` | app/pdf-fill/page.tsx:323-325 | a pair that reads as `v` is the channel `v` divided by 255 |
| `FormFill.ScreenToPdf` | app/pdf-fill/page.tsx:317-319 | screen coordinates divided by the zoom, with y measured from the bottom of the page |
| `FormFill.ScreenToPdfInjective` | app/pdf-fill/page.tsx:317-319 | two clicks drawn at the same PDF point were made at the same screen point |
| `FormFill.AnnotationOp` | app/pdf-fill/page.tsx:327-332 | an annotation draws its text at the mapped point, in its size and parsed colour |
| `FormFill.DrawAnnotations` | app/pdf-fill/page.tsx:310-334 | drawing annotations keeps the number of pages |
| `FormFill.DrawAnnotationsPage` | app/pdf-fill/page.tsx:310-334 | each page keeps its size and content and gains exactly its own annotations, in order; an annotation past the last page is dropped |
| `FormFill.DrawAnnotationsLoop` | app/pdf-fill/page.tsx:309-334 | the annotation loop computes `DrawAnnotations` |
| `FormFill.FilledFileName` | app/pdf-fill/page.tsx:349-351 | corrected name: always ends in "_rempli.pdf", and is "document_rempli.pdf" without a file |
| `FormFill.FilledFileNameOf` | app/pdf-fill/page.tsx:349-351 | corrected name: "x.pdf" and "x.PDF" both become "x_rempli.pdf" |
| `FormFill.FilledFileNameAsWritten` | app/pdf-fill/page.tsx:349-351 | as written: "document_rempli.pdf" without a file, the name unchanged when it holds no lower-case ".pdf", and otherwise seven characters longer because one ".pdf" became "_rempli.pdf" |
| `FormFill.FilledFileNamesAgree` | app/pdf-fill/page.tsx:349-351 | for a name "x.pdf" with no other dot, the page's name and the corrected name are both "x_rempli.pdf" |
| `FormFill.FilledFileNameAsWrittenKeepsUpperCase` | app/pdf-fill/page.tsx:349-351 | as written, "Rapport.PDF" is downloaded under its own name |
| `FormFill.FilledFileNameAsWrittenInnerOccurrence` | app/pdf-fill/page.tsx:349-351 | as written, any dot-free base followed by ".pdf.pdf" (such as "a.pdf.pdf") has its inner ".pdf" replaced: "a_rempli.pdf.pdf" |
| `FormFill.Download` | app/pdf-fill/page.tsx:272-360 | without a loaded file there is no output; otherwise the form is written back, the annotations are drawn, flattening is recorded and the file is named as the page names it (`FilledFileNameAsWritten`) |
| `FormFill.DownloadKeepsEdits` | app/pdf-fill/page.tsx:272-360 | the form as written, before flattening, re-extracts to the edited entries, each settled (a text over its field's /MaxLen keeps its old value), and each page carries exactly its own annotations |
| `FormFill.FillEditor.constructor` | app/pdf-fill/page.tsx:51-71 | the initial state: no fields or annotations, text "Texte", size 14, black, zoom 1.5 |
| `FormFill.FillEditor.OpenFile` | app/pdf-fill/page.tsx:182-215 | a new file: the entries read from its form, no annotations, the first page, the tool settings kept |
| `FormFill.FillEditor.EditField` | app/pdf-fill/page.tsx:219-228 | an edit updates exactly one entry's value |
| `FormFill.FillEditor.SetAddTextMode` | app/pdf-fill/page.tsx:555 | the toggle sets text mode |
| `FormFill.FillEditor.SetFontSize` | app/pdf-fill/page.tsx:624-627 | the font size becomes the clamped input |
| `FormFill.FillEditor.SetText` | app/pdf-fill/page.tsx:614 | the text for new annotations is set |
| `FormFill.FillEditor.SetColor` | app/pdf-fill/page.tsx:641 | the colour for new annotations is set |
| `FormFill.FillEditor.SetZoom` | app/pdf-fill/page.tsx:582-592 | the zoom is one of the five offered levels |
| `FormFill.FillEditor.PreviousPage` | app/pdf-fill/page.tsx:528-533 | the previous-page button goes one page back and never below the first |
| `FormFill.FillEditor.NextPage` | app/pdf-fill/page.tsx:541-547 | the next-page button goes one page on and never past the last |
| `FormFill.FillEditor.GoToPage` | app/pdf-fill/page.tsx:733 | a thumbnail makes its page the current one |
| `FormFill.FillEditor.CanvasClick` | app/pdf-fill/page.tsx:232-254 | a click on the displayed page adds, only in text mode, an annotation on the current page with the current text, size and colour |
| `FormFill.FillEditor.RemoveAnnotationById` | app/pdf-fill/page.tsx:258-260 | the annotation with that id is removed |
| `FormFill.FillEditor.EditAnnotationText` | app/pdf-fill/page.tsx:264-268 | the annotation with that id gets the new text |
| `FormFill.FillEditor.DownloadFilled` | app/pdf-fill/page.tsx:272-361 | the download button uses the page's current entries, annotations and zoom, and its result is exactly `Download`'s on them |
| `ImageToPdf.BaseSize` | app/image-to-pdf/page.tsx:168-181 | A4 is 595.28 × 841.89 points and Letter 612 × 792; a custom size is millimetres times 2.835 |
| `ImageToPdf.Orient` | app/image-to-pdf/page.tsx:183-187 | the two sides are kept, possibly swapped, with the longer one horizontal in landscape and vertical in portrait |
| `ImageToPdf.OrientNormalises` | app/image-to-pdf/page.tsx:183-187 | orienting is idempotent and does not depend on the order of the sides |
| `ImageToPdf.PageDimensions` | app/image-to-pdf/page.tsx:168-190 | the page size is the base size, oriented |
| `ImageToPdf.NamedPageDimensions` | app/image-to-pdf/page.tsx:40-43 | A4 portrait, A4 landscape and Letter landscape have their printed sizes |
| `ImageToPdf.ContentBox` | app/image-to-pdf/page.tsx:253-255 | the content area is the page minus the margin on every side |
| `ImageToPdf.Layout` | app/image-to-pdf/page.tsx:280-302 | stretch draws exactly the content box; fit and fill are centred in it |
| `ImageToPdf.StretchIsContent` | app/image-to-pdf/page.tsx:280-284 | stretch draws exactly the content box, whatever the image |
| `ImageToPdf.FitInside` | app/image-to-pdf/page.tsx:285-292 | fit keeps the aspect ratio, is centred, lies inside the content box and touches two opposite sides |
| `ImageToPdf.FillCovers` | app/image-to-pdf/page.tsx:293-302 | fill keeps the aspect ratio, is centred, covers the content box and matches it on one dimension |
| `ImageToPdf.SameShapeIsExact` | app/image-to-pdf/page.tsx:280-302 | an image with the content box's shape is drawn exactly on the box in every mode |
| `ImageToPdf.MoveImage` | app/image-to-pdf/page.tsx:148-157 | a move swaps the image with its neighbour, or changes nothing at either end; the list stays a permutation |
| `ImageToPdf.MoveImageInverse` | app/image-to-pdf/page.tsx:148-157 | moving the image back undoes a move |
| `ImageToPdf.RemoveImage` | app/image-to-pdf/page.tsx:161-164 | removal keeps exactly the images with another id, and adds none |
| `ImageToPdf.EmbedFormat` | app/image-to-pdf/page.tsx:198-226 | only "image/jpeg" is embedded as JPEG; everything else is embedded as PNG |
| `ImageToPdf.ImagePage` | app/image-to-pdf/page.tsx:270-309 | each image gets a page of the computed size with a single drawing on it |
| `ImageToPdf.ConvertToPdf` | app/image-to-pdf/page.tsx:243-316 | no images gives no output; otherwise there is one page per image in order, and progress runs from 0 to 100 |
| `ImageToPdf.ConversionProgressMonotone` | app/image-to-pdf/page.tsx:258 | the progress shown never goes down |
| `PdfToImage.DpiToScale` | app/pdf-to-image/page.tsx:70-73 | the scale times 72 is the resolution, so it is at least 1 |
| `PdfToImage.DpiToScaleIncreasing` | app/pdf-to-image/page.tsx:70-73 | a higher resolution gives a strictly larger scale |
| `PdfToImage.EncodingOf` | app/pdf-to-image/page.tsx:92-94 | JPEG is encoded at quality 0.92 over white; PNG has no quality and no background |
| `PdfToImage.WhiteBackgroundOnlyForJpeg` | app/pdf-to-image/page.tsx:109-113 | the white background is painted exactly for JPEG, the only format with a quality |
| `PdfToImage.Rendered` | app/pdf-to-image/page.tsx:100-128 | page n is rendered with the format's encoding, its size the source size times the scale, rounded |
| `PdfToImage.ConvertPdfToImages` | app/pdf-to-image/page.tsx:76-133 | no file gives no output; otherwise each page i becomes page i + 1 rendered, and progress runs from 0 to 100 |
| `PdfToImage.ConvertedNumbersDistinct` | app/pdf-to-image/page.tsx:122-127 | the converted pages carry pairwise distinct numbers |
| `PdfToImage.PageFileName` | app/pdf-to-image/page.tsx:150-154 | a page's file name starts with the base name and "_page_" |
| `PdfToImage.PageFileNameInjective` | app/pdf-to-image/page.tsx:154 | different page numbers give different file names |
| `PdfToImage.PageFileNameExample` | app/pdf-to-image/page.tsx:150-154 | "rapport.pdf" page 3 as JPEG is "rapport_page_3.jpg"; no file, page 12, PNG is "document_page_12.png" |
| `PdfToImage.DownloadAllAsZip` | app/pdf-to-image/page.tsx:163-191 | nothing converted gives no archive; otherwise one entry per page, named after its page, in the folder "<base>_images" of "<base>_images.zip" |
| `PdfToImage.ZipEntriesDistinct` | app/pdf-to-image/page.tsx:175-181 | no two entries of the archive have the same name |
| `CompressPdf.PresetOf` | app/compress-pdf/page.tsx:37-60 | every preset scales the pages by 1 to 1.5 and uses a JPEG quality from 0.4 to 0.8 |
| `CompressPdf.PresetsOrdered` | app/compress-pdf/page.tsx:37-60 | a stronger level has a strictly smaller scale and JPEG quality, and every quality is in (0, 1] |
| `CompressPdf.ReductionPercentage` | app/compress-pdf/page.tsx:100-103 | 0 without sizes, otherwise the saving in percent rounded; at most 100, and not negative when the output is not larger |
| `CompressPdf.ReductionMonotone` | app/compress-pdf/page.tsx:100-103 | a smaller output never shows a smaller saving |
| `CompressPdf.RebuiltPage` | app/compress-pdf/page.tsx:136-165 | each page is rebuilt at the preset's scale as one JPEG image covering the whole page |
| `CompressPdf.Track` | app/compress-pdf/page.tsx:178-193 | the tracked record is a "compress" of a "pdf" with the original name and the output size |
| `CompressPdf.Compress` | app/compress-pdf/page.tsx:108-207 | no file gives nothing; otherwise one rebuilt page per source page, the preset's quality, both sizes, progress from 0 to 100 and the tracking call |
| `CompressPdf.DownloadName` | app/compress-pdf/page.tsx:211-217 | a download is offered exactly when there is a result and a file |
| `CompressPdf.DownloadNameOf` | app/compress-pdf/page.tsx:184 | "x.pdf" and "x.PDF" download as "x_compressé.pdf" and are tracked as "x_compressed.pdf" |
| `CompressPdf.FormatFileSize` | app/compress-pdf/page.tsx:92-96 | bytes below 1 KiB, kibibytes below 1 MiB, mebibytes from there on |
| `CompressPdf.FormatFileSizeExact` | app/compress-pdf/page.tsx:92-96 | the number shown, times its unit, is the size; a Ko figure lies in [1, 1024) |
| `FileUpload.ValidFiles` | components/file-upload.tsx:31-48 | the kept files all fit under the limit |
| `FileUpload.LastTooLarge` | components/file-upload.tsx:35-43 | the file named in the error is one of the given files, and too large |
| `FileUpload.ValidFilesMembership` | components/file-upload.tsx:35-43 | a file is kept exactly when it was given and fits |
| `FileUpload.ValidFilesAppend` | components/file-upload.tsx:35-43 | filtering a concatenation filters each part |
| `FileUpload.ValidFilesAllFit` | components/file-upload.tsx:35-43 | when every file fits, none is dropped |
| `FileUpload.ErrorIffTooLarge` | components/file-upload.tsx:31-48 | the error is set exactly when some given file is too large |
| `FileUpload.RemoveAt` | components/file-upload.tsx:91-95 | removal drops exactly that position and shifts the rest; an index past the end changes nothing |
| `FileUpload.RemoveLastUndoesAppend` | components/file-upload.tsx:91-95 | removing the file just appended gives back the earlier selection |
| `FileUpload.Uploader.constructor` | components/file-upload.tsx:17-27 | the size limit defaults to 50 MB, with no error and nothing selected |
| `FileUpload.Uploader.ValidateFiles` | components/file-upload.tsx:31-48 | the loop returns the files that fit and sets the error for the last one that does not |
| `FileUpload.Uploader.HandleFiles` | components/file-upload.tsx:50-59 | valid files are appended (multiple) or replace the selection, which is reported once; with none valid nothing changes |
| `FileUpload.Uploader.RemoveFile` | components/file-upload.tsx:91-95 | one position is dropped and the new list is reported |
| `SignaturePad.GetCoords` | components/signature-pad.tsx:46-64 | the pointer's offset in the box, scaled from the box size to the canvas size |
| `SignaturePad.GetCoordsCorners` | components/signature-pad.tsx:46-64 | the box's corners map to the canvas's corners, and the mapping can be undone |
| `SignaturePad.Pad.constructor` | components/signature-pad.tsx:15-44 | a 600 × 200 canvas by default, filled white, black pen of width 2, nothing drawn, the initial image loading when given and not empty |
| `SignaturePad.Pad.InitialImageLoaded` | components/signature-pad.tsx:38-41 | the loaded initial image is drawn and counts as drawn |
| `SignaturePad.Pad.StartDrawing` | components/signature-pad.tsx:66-80 | a stroke starts at the pointer in the current colour and width, and the pad counts as drawn |
| `SignaturePad.Pad.Draw` | components/signature-pad.tsx:82-91 | the stroke is extended to the pointer only while drawing |
| `SignaturePad.Pad.StopDrawing` | components/signature-pad.tsx:93-95 | the pen lifts |
| `SignaturePad.Pad.ClearCanvas` | components/signature-pad.tsx:97-106 | the canvas is filled white and nothing counts as drawn |
| `SignaturePad.Pad.Reset` | components/signature-pad.tsx:184-199 | clear, then load the initial image again when it is given and not empty |
| `SignaturePad.Pad.SetColor` | components/signature-pad.tsx:146-157 | the colour is one of the four offered |
| `SignaturePad.Pad.SetLineWidth` | components/signature-pad.tsx:163-170 | the width is a whole number from 1 to 6 |
| `SignaturePad.Pad.Save` | components/signature-pad.tsx:206-208 | saving emits the canvas as PNG, and only once something is drawn |
| `Dashboard.FormatFileSize` | app/dashboard/page.tsx:82-87 | a dash for 0 bytes, then bytes, kibibytes or mebibytes by magnitude |
| `Dashboard.FormatFileSizeExact` | app/dashboard/page.tsx:82-87 | the number shown, times its unit, is the size |
| `Dashboard.ActionLabel` | app/dashboard/page.tsx:89-97 | an action is shown unchanged exactly when it is not one of the four known ones |
| `Dashboard.ActionColor` | app/dashboard/page.tsx:99-107 | an action is shown in grey exactly when it is not one of the four known ones |
| `Dashboard.ActionLookups` | app/dashboard/page.tsx:89-107 | the four known actions have four distinct labels and four distinct colours |
| `Dashboard.IsFree` | app/dashboard/page.tsx:241 | a missing plan counts as free, and a free user's badge reads "Gratuit" |
| `Dashboard.LimitReached` | app/dashboard/page.tsx:307 | "Limite atteinte" shows only to a free user for whom usage data arrived |
| `Dashboard.LimitReachedCases` | app/dashboard/page.tsx:241-243 | without usage data the figures are 0 of 2 and no warning shows; a paying user never sees it |
| `Dashboard.PlanBadge` | app/dashboard/page.tsx:119-140 | "Pro" and "Business" for exactly those plans, "Gratuit" for everything else |
| `Dashboard.PlanLabelAsWritten` | app/dashboard/page.tsx:337-341 | as written: "Gratuit" exactly for "free", "Pro" exactly for "pro", and "Business" for every other value, a missing plan included |
| `Dashboard.PlanLabelAsWrittenMissingPlan` | app/dashboard/page.tsx:337-341 | as written, a user without a plan is treated as free but the card reads "Business" |
| `Dashboard.PlanLabel` | app/dashboard/page.tsx:337-341 | corrected card: "Gratuit" exactly for the plans the page treats as free |
| `Dashboard.PlanLabelCorrection` | app/dashboard/page.tsx:337-341 | the correction changes only a missing or empty plan, and agrees with the badge on every issued plan |
| `Store.SessionCookie` | app/api/auth/login/route.ts:45-51 | the session cookie is HTTP-only, on "/", holds the token and lasts seven days |
| `Store.FindUnique` | app/api/auth/login/route.ts:17 | `findUnique` by id or by e-mail finds a user with that key, or none when no user has it |
| `Store.PlanOf` | app/api/usage/route.ts:26 | the plan is never empty, and an unknown user is on the free plan |
| `Store.QuotaRule` | app/api/usage/route.ts:38-39 | a paid plan is unlimited and may always process; a free one may process exactly below its limit of 2 |
| `Store.DocumentsOf` | app/api/documents/route.ts:18-27 | exactly the caller's documents |
| `Store.DocumentsSince` | app/api/usage/route.ts:31-36 | exactly the caller's documents created since midnight |
| `Store.TodayCountAppend` | app/api/documents/route.ts:113-124 | a new row raises today's count by one exactly when it is the caller's and from today |
| `Store.SignaturesOf` | app/api/signatures/route.ts:16-19 | exactly the caller's signatures |
| `Store.InsertByTime` | app/api/documents/route.ts:20 | inserting into a newest-first list keeps it newest first and adds exactly that element |
| `Store.SortNewestFirst` | app/api/documents/route.ts:20 | `orderBy createdAt desc` gives the same rows, newest first |
| `Store.Window` | app/api/documents/route.ts:21-22 | `skip`/`take` returns the consecutive rows from `offset`: `limit` of them when enough remain, the rest of the list otherwise, and none past the end |
| `Store.WindowNewestFirst` | app/api/documents/route.ts:18-23 | a window of a newest-first list is newest first |
| `Store.Database.constructor` | app/api/documents/route.ts:113-124 | an empty database satisfies the uniqueness constraints |
| `UsageRoute.Entitlement` | app/api/usage/route.ts:38-49 | limit 2 and timestamps refused on the free plan; unlimited and allowed otherwise; may process below 2 documents or on a paid plan |
| `UsageRoute.Get` | app/api/usage/route.ts:6-57 | always 200; anonymous callers and failures get the free defaults; others get their plan's entitlement |
| `UsageRoute.UsageGates` | app/api/usage/route.ts:38-40 | a free caller may process at one document today and not after a second one, and never gets timestamps |
| `DocumentsRoute.Get` | app/api/documents/route.ts:6-64 | 401 exactly without a session; otherwise the window from `offset` (default 0) of at most `limit` (default 20) of the caller's documents, newest first, with the total, today's count, the plan, its limit and whether the caller may process |
| `DocumentsRoute.HistoryWindow` | app/api/documents/route.ts:18-23 | every window of the history holds only the caller's documents, newest first |
| `DocumentsRoute.GetAgreesWithUsage` | app/api/documents/route.ts:30-47 | the history reports the same count, limit, plan and permission as `/api/usage` |
| `DocumentsRoute.Decide` | app/api/documents/route.ts:67-124 | 401, then 400 for a missing field, then 429 at the free limit; a row is inserted (201) exactly when none of these apply, and it belongs to the caller |
| `DocumentsRoute.QuotaGateMatchesUsage` | app/api/documents/route.ts:91-111 | a complete request is refused with 429 exactly when `/api/usage` says the caller cannot process |
| `DocumentsRoute.FreeQuotaKept` | app/api/documents/route.ts:91-124 | a free account with at most two documents today still has at most two after any POST |
| `DocumentsRoute.Post` | app/api/documents/route.ts:67-132 | the table grows by exactly the decided row, or not at all, and ids stay unique |
| `SignaturesRoute.Get` | app/api/signatures/route.ts:6-29 | 401 without a session; otherwise the caller's signatures, newest first |
| `SignaturesRoute.GetListsExactlyOwn` | app/api/signatures/route.ts:16-19 | a signature is listed exactly when it is one of the caller's |
| `SignaturesRoute.DecideCreate` | app/api/signatures/route.ts:32-67 | 401, then 400 unless name and data are given; otherwise 201 with a new row owned by the caller |
| `SignaturesRoute.RemoveById` | app/api/signatures/route.ts:102 | deleting by id keeps exactly the rows with another id |
| `SignaturesRoute.RemoveByIdDistributes` | app/api/signatures/route.ts:102 | deletion works row by row, keeping the order |
| `SignaturesRoute.RemoveByIdAbsent` | app/api/signatures/route.ts:102 | deleting an absent id changes nothing |
| `SignaturesRoute.RemoveByIdExactlyOne` | app/api/signatures/route.ts:102 | with unique ids, deleting the id of row k removes that row and nothing else |
| `SignaturesRoute.OthersKeepTheirRows` | app/api/signatures/route.ts:102 | with unique ids, the rows around row k survive deletion of its id unchanged |
| `SignaturesRoute.DecideDelete` | app/api/signatures/route.ts:70-112 | 401, then 400 without an id, then 404 unless the caller owns a signature with that id; otherwise 200 and the row goes |
| `SignaturesRoute.DeleteNeverTouchesOthers` | app/api/signatures/route.ts:90-102 | a row that is not the caller's survives every DELETE |
| `SignaturesRoute.UniqueAfterDrop` | app/api/signatures/route.ts:102 | deleting one row keeps the signature ids unique |
| `SignaturesRoute.Post` | app/api/signatures/route.ts:32-67 | the table grows by exactly the decided row, or not at all |
| `SignaturesRoute.Delete` | app/api/signatures/route.ts:70-112 | on success exactly the caller's row with that id is removed and all others stay in order (`DeletedOwnRow`); otherwise nothing changes |
| `RegisterRoute.Decide` | app/api/auth/register/route.ts:6-58 | 400 missing field, 400 password under 6 characters, 409 e-mail taken; otherwise 201 and a user with the hashed password and a session cookie |
| `RegisterRoute.Register` | app/api/auth/register/route.ts:34-36 | the users table grows by exactly the new user, or not at all, and e-mails stay unique |
| `RegisterRoute.SecondRegistrationRefused` | app/api/auth/register/route.ts:24-30 | registering the same e-mail twice is refused with 409 |
| `LoginRoute.Login` | app/api/auth/login/route.ts:6-53 | 400 without credentials; 200 exactly for a known e-mail whose password checks out, with the user and the plan; a cookie only on 200 |
| `LoginRoute.FailuresIndistinguishable` | app/api/auth/login/route.ts:17-31 | an unknown e-mail and a wrong password get the same 401 answer |
| `LoginRoute.RegisterThenLogin` | app/api/auth/login/route.ts:17-31 | after a successful registration, logging in with the same credentials succeeds as the new user |
| `Store.FindUniqueAppend` | app/api/auth/register/route.ts:24-36 | a user appended with a key no earlier user has is the one `findUnique` finds by that key |

## Left out

- pdf-lib and pdf.js internals are not modelled: loading, saving, embedding, rendering, and the page images drawn on the canvas. A PDF is a list of pages with sizes and drawing operations, and a rendered image is identified by its page and encoding.
- Canvas and DOM state is not modelled. This covers the canvas's truncation of a fractional viewport size to whole pixels, blobs, object URLs, `saveAs`, scrolling and focus.
- IEEE floating point is modelled by exact reals. `toFixed` formatting is not modelled: sizes carry their unit and exact value.
- Exceptions inside the page loops and other client-side `try`/`catch` paths only reset loading flags, so they are not modelled. Database exceptions (status 500) are left out of every route except `/api/usage`, which answers them with status 200.
- `parseInt` on `limit` and `offset` is not modelled: negative values and NaN are excluded by `nat` options, and an absent value is `None`.
- JSON type coercion is not modelled. Request fields are strings or absent, and a falsy field is `None` or `""`. A NaN `size` is not modelled either.
- RegisterRoute.Decide: the password length is counted in characters of the model string, not in UTF-16 code units.
- Concurrency is not modelled: overlapping requests, React's batching of state updates, and stale callback closures. Every handler runs to completion on the current state.
- The `secure` cookie flag depends on `NODE_ENV` and is not modelled. The `sameSite` attribute is fixed and is not modelled either.
- `textToSignatureDataUrl` (typed signatures rendered with a font), image uploads of signatures and stamps, and saved-signature fetching in the sign page are not modelled. They go through the canvas and the network.
- The `formatFileSize` helpers of image-to-pdf and pdf-to-image are not modelled. They match the compress-pdf one, which is.
- Dashboard: data fetching and deleting a signature from the dashboard go through the signatures route, which is modelled. Action lookups on inherited object keys such as "toString" are not modelled.
- The custom page size's millimetre bounds come from input attributes and are not enforced.
- The user's plan is not computed here: the schema's default plan is the `defaultPlan` parameter of RegisterRoute.Decide.
- Fresh ids are parameters. Callers must give an id not yet in use, which stands for the database's own id generation.
- The clock and local midnight are parameters (`now`, `todayStart`).
- bcrypt's `hash` and `compare` and JWT signing are parameters. `LoginRoute.RegisterThenLogin` assumes that `compare(p, hash(p))` holds for every `p`.
- FormFields.SetValue: selecting "" in a dropdown keeps its current selection. The model settles the entry to the field's previous value. pdf-lib's handling of options missing from a dropdown is not modelled. A text's length is counted in characters of the model string, not in UTF-16 code units, when it is compared with the field's /MaxLen.
- Store.SortNewestFirst: the database leaves the order of documents or signatures with equal `createdAt` unspecified. The model fixes one order, later table rows first among equals. `DocumentsRoute.Get` and `SignaturesRoute.Get` promise that order, where the source promises only some newest-first order of the same rows.

## Findings

| source | as written | input that shows it | evidently intended | confidence | as-written member | corrected member |
|---|---|---|---|---|---|---|
| app/dashboard/page.tsx:337-341 | the "Plan actuel" card reads "Gratuit" only for the exact plan "free" and "Business" for every other value | a session token without a `plan` claim (registration issues one), so `user.plan` is undefined: the page counts the user as free at line 241 but the card says "Business" | the card uses the same default as the rest of the page: a missing or empty plan reads "Gratuit" | high (not executed) | `Dashboard.PlanLabelAsWrittenMissingPlan` | `Dashboard.PlanLabelCorrection` |
| app/pdf-fill/page.tsx:349-351 | the download name is `name.replace(".pdf", "_rempli.pdf")`: only the first, lower-case occurrence is replaced | "Rapport.PDF" is offered as "Rapport.PDF"; "a.pdf.pdf" becomes "a_rempli.pdf.pdf" | like the other tools, a trailing ".pdf" in any letter case is removed and "_rempli.pdf" appended | high (not executed) | `FormFill.FilledFileNameAsWrittenKeepsUpperCase` | `FormFill.FilledFileNameOf` |
