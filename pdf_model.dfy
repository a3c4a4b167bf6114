/** What the pages need of pdf-lib and pdfjs-dist, kept abstract: a document is
    a sequence of pages, each with its size in points and the log of drawing
    operations made on it; an image is its pixel size and its encoding. */
module PdfModel {
  import opened Common

  datatype ImageFormat = Png | Jpeg

  /** A length that a decoded PNG or JPEG always has: strictly positive. */
  type Positive = x: real | x > 0.0 witness 1.0

  /** A decoded or embedded raster: pixel width and height, and how it is encoded. */
  datatype Image = Image(width: Positive, height: Positive, format: ImageFormat)

  datatype Rgb = Rgb(r: real, g: real, b: real)

  datatype Font = Helvetica

  /** One call of `page.drawImage` or `page.drawText`. A text colour is `None`
      when the source passed channels that are not numbers. */
  datatype DrawOp =
    | DrawImage(image: Image, x: real, y: real, width: real, height: real)
    | DrawText(text: string, x: real, y: real, size: real, font: Font, color: Option<Rgb>)

  datatype Page = Page(width: real, height: real, ops: seq<DrawOp>)

  /** The size of a loaded page, `getViewport({ scale: 1 })`, in points. */
  datatype PageSize = PageSize(width: Positive, height: Positive)

  /** A rectangle in the page's own coordinates. */
  datatype Box = Box(x: real, y: real, width: real, height: real)

  function DrawImageIn(image: Image, b: Box): DrawOp
  {
    DrawImage(image, b.x, b.y, b.width, b.height)
  }

  /** `page.drawX(...)`: the page keeps its size and gains one more operation. */
  function AppendOp(p: Page, op: DrawOp): (q: Page)
    ensures q.width == p.width && q.height == p.height && q.ops == p.ops + [op]
  {
    p.(ops := p.ops + [op])
  }

  /** The empty page `addPage([w, h])` creates. */
  function NewPage(width: real, height: real): Page
  {
    Page(width, height, [])
  }
}
