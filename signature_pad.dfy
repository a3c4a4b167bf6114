/** The hand-drawn signature pad: pointer positions are scaled from the
    on-screen box to the canvas's own pixels, the pen draws only between press
    and release, and "save" is offered only once something has been drawn. */
module SignaturePad {
  import opened Common
  import opened PdfModel

  datatype Point = Point(x: real, y: real)

  /** A mouse event carries one position; a touch event the list of touch points. */
  datatype PointerEvent = MouseAt(client: Point) | TouchAt(touches: seq<Point>)

  /** What the pad does to its canvas: fill it white, draw the initial image,
      start a stroke with the current pen, or extend the stroke. */
  datatype CanvasOp = FillWhite | DrawInitial | MoveTo(at: Point, color: string, lineWidth: int) | LineTo(at: Point)

  /** What `onSave` receives: the PNG encoding of the canvas as drawn so far. */
  datatype DataUrl = PngOf(canvas: seq<CanvasOp>)

  const COLORS: seq<string> := ["#000000", "#1e40af", "#dc2626", "#059669"]
  const DEFAULT_WIDTH: Positive := 600.0
  const DEFAULT_HEIGHT: Positive := 200.0

  predicate HasPoint(e: PointerEvent)
  {
    e.MouseAt? || |e.touches| > 0
  }

  /** The position an event reports: the first touch point for a touch event. */
  function ClientPoint(e: PointerEvent): Point
    requires HasPoint(e)
  {
    match e
    case MouseAt(p) => p
    case TouchAt(ts) => ts[0]
  }

  /** Maps a position on screen to the canvas's pixel grid, scaling by the
      ratio of the canvas's size to its displayed size. */
  function GetCoords(client: Point, rect: ClientRect, canvasWidth: Positive, canvasHeight: Positive): (p: Point)
    requires Mounted(rect)
    ensures p.x * rect.width == (client.x - rect.left) * canvasWidth
    ensures p.y * rect.height == (client.y - rect.top) * canvasHeight
  {
    Point((client.x - rect.left) * (canvasWidth / rect.width), (client.y - rect.top) * (canvasHeight / rect.height))
  }

  /** The box's corners map to the canvas's corners, and the mapping can be undone. */
  lemma GetCoordsCorners(rect: ClientRect, canvasWidth: Positive, canvasHeight: Positive, client: Point)
    requires Mounted(rect)
    ensures GetCoords(Point(rect.left, rect.top), rect, canvasWidth, canvasHeight) == Point(0.0, 0.0)
    ensures GetCoords(Point(rect.left + rect.width, rect.top + rect.height), rect, canvasWidth, canvasHeight)
      == Point(canvasWidth, canvasHeight)
    ensures var p := GetCoords(client, rect, canvasWidth, canvasHeight);
      p.x * rect.width / canvasWidth + rect.left == client.x
      && p.y * rect.height / canvasHeight + rect.top == client.y
  {
    var p := GetCoords(client, rect, canvasWidth, canvasHeight);
    assert p.x * rect.width / canvasWidth == client.x - rect.left;
    assert p.y * rect.height / canvasHeight == client.y - rect.top;
  }

  /** Whether the canvas shows ink put there since it was last filled white:
      a stroke start or the initial image. */
  function InkSinceClear(ops: seq<CanvasOp>): bool
  {
    if ops == [] then false
    else match ops[|ops| - 1]
      case FillWhite => false
      case DrawInitial => true
      case MoveTo(_, _, _) => true
      case LineTo(_) => InkSinceClear(ops[..|ops| - 1])
  }

  class Pad {
    var canvasWidth: Positive
    var canvasHeight: Positive
    var initialData: Option<string>
    var isDrawing: bool
    var hasDrawn: bool
    var color: string
    var lineWidth: int
    /** Everything done to the canvas, in order. */
    var canvas: seq<CanvasOp>
    /** Loads of the initial image started and not yet finished. */
    var pendingLoads: nat
    /** Every value passed to `onSave`, in call order. */
    var saved: seq<DataUrl>

    /** The pen is one of the offered colours and widths, and "drawn" means
        exactly that the canvas holds ink since it was last cleared. */
    ghost predicate Valid()
      reads this
    {
      && color in COLORS
      && 1 <= lineWidth <= 6
      && hasDrawn == InkSinceClear(canvas)
      && (forall i :: 0 <= i < |saved| ==> InkSinceClear(saved[i].canvas))
    }

    /** Mounting fills the canvas white and starts loading the initial image,
        if one is given and is not the empty string (which JavaScript treats as false). */
    constructor (width: Option<Positive>, height: Option<Positive>, initialData: Option<string>)
      ensures Valid()
      ensures canvasWidth == (if width.Some? then width.value else DEFAULT_WIDTH)
      ensures canvasHeight == (if height.Some? then height.value else DEFAULT_HEIGHT)
      ensures this.initialData == initialData
      ensures !isDrawing && !hasDrawn && color == "#000000" && lineWidth == 2
      ensures canvas == [FillWhite] && saved == []
      ensures pendingLoads == (if initialData.Some? && initialData.value != "" then 1 else 0)
    {
      canvasWidth := if width.Some? then width.value else DEFAULT_WIDTH;
      canvasHeight := if height.Some? then height.value else DEFAULT_HEIGHT;
      this.initialData := initialData;
      isDrawing := false;
      hasDrawn := false;
      color := "#000000";
      lineWidth := 2;
      canvas := [FillWhite];
      pendingLoads := if initialData.Some? && initialData.value != "" then 1 else 0;
      saved := [];
    }

    /** The initial image has loaded: it is drawn and counts as drawn. */
    method InitialImageLoaded()
      requires Valid() && pendingLoads > 0
      modifies this`canvas, this`hasDrawn, this`pendingLoads
      ensures Valid()
      ensures canvas == old(canvas) + [DrawInitial] && hasDrawn
      ensures pendingLoads == old(pendingLoads) - 1
    {
      canvas := canvas + [DrawInitial];
      hasDrawn := true;
      pendingLoads := pendingLoads - 1;
    }

    /** Press: a stroke starts at the pointer with the current pen; the pad is
        drawing and has been drawn on. */
    method StartDrawing(e: PointerEvent, rect: ClientRect)
      requires Valid() && HasPoint(e) && Mounted(rect)
      modifies this`canvas, this`isDrawing, this`hasDrawn
      ensures Valid()
      ensures canvas == old(canvas) + [MoveTo(GetCoords(ClientPoint(e), rect, canvasWidth, canvasHeight), color, lineWidth)]
      ensures isDrawing && hasDrawn
    {
      var p := GetCoords(ClientPoint(e), rect, canvasWidth, canvasHeight);
      canvas := canvas + [MoveTo(p, color, lineWidth)];
      isDrawing := true;
      hasDrawn := true;
    }

    /** Move: the stroke is extended to the pointer only while drawing. */
    method Draw(e: PointerEvent, rect: ClientRect)
      requires Valid() && HasPoint(e) && Mounted(rect)
      modifies this`canvas
      ensures Valid()
      ensures !isDrawing ==> canvas == old(canvas)
      ensures isDrawing ==> canvas == old(canvas) + [LineTo(GetCoords(ClientPoint(e), rect, canvasWidth, canvasHeight))]
    {
      if !isDrawing {
        return;
      }
      var p := GetCoords(ClientPoint(e), rect, canvasWidth, canvasHeight);
      canvas := canvas + [LineTo(p)];
    }

    /** Release or leave: the pen lifts; what was drawn stays drawn. */
    method StopDrawing()
      requires Valid()
      modifies this`isDrawing
      ensures Valid()
      ensures !isDrawing
    {
      isDrawing := false;
    }

    /** "Effacer": the canvas is filled white and nothing counts as drawn. */
    method ClearCanvas()
      requires Valid()
      modifies this`canvas, this`hasDrawn
      ensures Valid()
      ensures canvas == old(canvas) + [FillWhite] && !hasDrawn
    {
      canvas := canvas + [FillWhite];
      hasDrawn := false;
    }

    /** "Réinitialiser": clear, then load the initial image again if there is a
        non-empty one (an empty data URL is falsy and starts no load). */
    method Reset()
      requires Valid()
      modifies this`canvas, this`hasDrawn, this`pendingLoads
      ensures Valid()
      ensures canvas == old(canvas) + [FillWhite] && !hasDrawn
      ensures pendingLoads == old(pendingLoads) + (if initialData.Some? && initialData.value != "" then 1 else 0)
    {
      ClearCanvas();
      if initialData.Some? && initialData.value != "" {
        pendingLoads := pendingLoads + 1;
      }
    }

    method SetColor(c: string)
      requires Valid() && c in COLORS
      modifies this`color
      ensures Valid() && color == c
    {
      color := c;
    }

    /** The width slider offers whole numbers from 1 to 6. */
    method SetLineWidth(n: int)
      requires Valid() && 1 <= n <= 6
      modifies this`lineWidth
      ensures Valid() && lineWidth == n
    {
      lineWidth := n;
    }

    /** "Sauvegarder": disabled until something is drawn; when enabled it sends
        exactly one PNG of the current canvas. */
    method Save()
      requires Valid()
      modifies this`saved
      ensures Valid()
      ensures !hasDrawn ==> saved == old(saved)
      ensures hasDrawn ==> saved == old(saved) + [PngOf(canvas)]
    {
      if !hasDrawn {
        return;
      }
      saved := saved + [PngOf(canvas)];
    }
  }
}
