/** The export of the signing page: placed items are grouped by page number
    in the insertion order of a `Map`, then each item is drawn on its page,
    converted from top-left percentages to pdf-lib's bottom-left points, with
    its time-stamp label below it when it has one. */
module SignExport {
  import opened Common
  import opened PdfModel
  import opened SignPdf

  /** One entry of the `Map<number, PlacedItem[]>`. */
  datatype Group = Group(page: int, items: seq<PlacedItem>)

  /** The rendered document and the name it is saved under. */
  datatype SignedPdf = SignedPdf(pages: seq<Page>, fileName: string)

  const STAMP_GREY: Rgb := Rgb(0.35, 0.35, 0.35)

  // ---------------------------------------------------------------- geometry

  /** Where an item lands on a page of `pageW` by `pageH` points: its width is
      the width percentage of the page, its height keeps the image's aspect,
      and its top edge sits `yPercent` of the page height below the top. */
  function ExportBox(it: PlacedItem, pageW: real, pageH: real): (b: Box)
    ensures b.width == it.widthPercent * pageW
    ensures b.height * it.image.width == b.width * it.image.height
    ensures b.x == it.xPercent * pageW
    ensures b.y + b.height == pageH - it.yPercent * pageH
  {
    var w := it.widthPercent * pageW;
    var h := w * (it.image.height / it.image.width);
    var x := it.xPercent * pageW;
    Box(x, pageH - it.yPercent * pageH - h, w, h)
  }

  /** The box converts back into the item's percentages: the conversion loses nothing. */
  lemma ExportBoxInverse(it: PlacedItem, pageW: Positive, pageH: Positive)
    ensures var b := ExportBox(it, pageW, pageH);
      && b.x / pageW == it.xPercent
      && b.width / pageW == it.widthPercent
      && (pageH - (b.y + b.height)) / pageH == it.yPercent
  {
  }

  /** An item kept in bounds starts inside the page horizontally and its top edge is on the page. */
  lemma ExportBoxOnPage(it: PlacedItem, pageW: Positive, pageH: Positive)
    requires InBounds(it)
    ensures var b := ExportBox(it, pageW, pageH);
      && 0.0 <= b.x < pageW && b.width > 0.0 && b.height > 0.0
      && 0.0 < b.y + b.height <= pageH
  {
    var ratio := it.image.height / it.image.width;
    PositivePart(it.image.height, 1.0 / it.image.width);
    BoxBounds(ExportBox(it, pageW, pageH), it.xPercent, it.yPercent, it.widthPercent, ratio, pageW, pageH);
  }

  /** The bounds of `ExportBoxOnPage`, from the box's defining equations alone. */
  lemma BoxBounds(b: Box, xp: real, yp: real, wp: real, ratio: real, pageW: real, pageH: real)
    requires 0.0 <= xp <= 0.95 && 0.0 <= yp <= 0.95 && wp >= 0.05 && ratio > 0.0
    requires pageW > 0.0 && pageH > 0.0
    requires b.x == xp * pageW && b.width == wp * pageW
    requires b.height == b.width * ratio && b.y + b.height == pageH - yp * pageH
    ensures 0.0 <= b.x < pageW && b.width > 0.0 && b.height > 0.0
    ensures 0.0 < b.y + b.height <= pageH
  {
    InsideLength(xp, pageW);
    InsideLength(yp, pageH);
    PositivePart(wp, pageW);
    PositivePart(b.width, ratio);
  }

  /** A fraction of at most 95% of a positive length stays inside it. */
  lemma InsideLength(f: real, len: real)
    requires 0.0 <= f <= 0.95 && len > 0.0
    ensures 0.0 <= f * len < len
  {
  }

  lemma PositivePart(f: real, len: real)
    requires f > 0.0 && len > 0.0
    ensures f * len > 0.0
  {
  }

  /** `Math.max(7, Math.min(itemWidth * 0.055, 12))`. */
  function LabelSize(itemWidth: real): (size: real)
    ensures 7.0 <= size <= 12.0
  {
    Max(7.0, Min(itemWidth * 0.055, 12.0))
  }

  /** What one item draws: its image, then its label when the label is not empty. */
  function ItemOps(it: PlacedItem, pageW: real, pageH: real): (ops: seq<DrawOp>)
    ensures |ops| == if it.timestamp == "" then 1 else 2
    ensures ops[0] == DrawImageIn(it.image, ExportBox(it, pageW, pageH))
    ensures it.timestamp != "" ==>
      var b := ExportBox(it, pageW, pageH);
      && ops[1].DrawText? && ops[1].text == it.timestamp && ops[1].x == b.x
      && ops[1].size == LabelSize(b.width) && ops[1].font == Helvetica
      && ops[1].color == Some(STAMP_GREY)
      // the label's top, one font size above its baseline, stays 3 points below the image
      && ops[1].y + ops[1].size == b.y - 3.0
  {
    var b := ExportBox(it, pageW, pageH);
    var image := [DrawImageIn(it.image, b)];
    if it.timestamp == "" then image
    else
      var size := LabelSize(b.width);
      image + [DrawText(it.timestamp, b.x, b.y - size - 3.0, size, Helvetica, Some(STAMP_GREY))]
  }

  /** The operations a list of items draws, in list order. */
  function OpsOf(items: seq<PlacedItem>, pageW: real, pageH: real): (ops: seq<DrawOp>)
    ensures |ops| >= |items|
  {
    if items == [] then []
    else OpsOf(items[..|items| - 1], pageW, pageH) + ItemOps(items[|items| - 1], pageW, pageH)
  }

  lemma {:induction false} OpsOfAppend(a: seq<PlacedItem>, b: seq<PlacedItem>, pageW: real, pageH: real)
    ensures OpsOf(a + b, pageW, pageH) == OpsOf(a, pageW, pageH) + OpsOf(b, pageW, pageH)
    decreases |b|
  {
    if b == [] {
      assert a + b == a;
    } else {
      var b' := b[..|b| - 1];
      assert (a + b)[..|a + b| - 1] == a + b';
      OpsOfAppend(a, b', pageW, pageH);
      Regroup(OpsOf(a, pageW, pageH), OpsOf(b', pageW, pageH), ItemOps(b[|b| - 1], pageW, pageH));
    }
  }

  // ---------------------------------------------------------------- grouping

  /** The items placed on page `k`, in placement order. */
  function OnPage(items: seq<PlacedItem>, k: int): (r: seq<PlacedItem>)
    ensures |r| <= |items|
    ensures forall i :: 0 <= i < |r| ==> r[i].pageNumber == k && r[i] in items
  {
    if items == [] then []
    else
      var last := items[|items| - 1];
      OnPage(items[..|items| - 1], k) + (if last.pageNumber == k then [last] else [])
  }

  predicate DistinctKeys(gs: seq<Group>)
  {
    forall i, j :: 0 <= i < j < |gs| ==> gs[i].page != gs[j].page
  }

  /** `map.get(k)` locates the entry with key `k`. */
  function KeyIndex(gs: seq<Group>, k: int): (r: Option<nat>)
    ensures r.Some? ==>
      && r.value < |gs| && gs[r.value].page == k
      && forall j :: 0 <= j < r.value ==> gs[j].page != k
    ensures r.None? ==> forall j :: 0 <= j < |gs| ==> gs[j].page != k
  {
    if gs == [] then None
    else if gs[0].page == k then Some(0)
    else match KeyIndex(gs[1..], k)
      case None => None
      case Some(i) => Some(i + 1)
  }

  /** The list stored under key `k`, empty when there is none. */
  function ItemsOf(gs: seq<Group>, k: int): seq<PlacedItem>
  {
    match KeyIndex(gs, k)
    case None => []
    case Some(i) => gs[i].items
  }

  lemma ItemsOfAt(gs: seq<Group>, i: nat)
    requires DistinctKeys(gs) && i < |gs|
    ensures ItemsOf(gs, gs[i].page) == gs[i].items
  {
    assert KeyIndex(gs, gs[i].page).Some?;
  }

  lemma {:induction false} ItemsOfSnoc(gs: seq<Group>, g: Group, k: int)
    requires DistinctKeys(gs + [g])
    ensures ItemsOf(gs + [g], k) == if g.page == k then g.items else ItemsOf(gs, k)
  {
    var all := gs + [g];
    if g.page == k {
      ItemsOfAt(all, |gs|);
    } else {
      match KeyIndex(gs, k)
      case None =>
        assert forall j :: 0 <= j < |all| ==> all[j].page != k by {
          forall j | 0 <= j < |all| ensures all[j].page != k {
            if j < |gs| { assert all[j] == gs[j]; }
          }
        }
      case Some(i) =>
        assert all[i] == gs[i];
        ItemsOfAt(all, i);
    }
  }

  /** `map.set(page, (map.get(page) || []).concat(item))`: an existing key keeps its place. */
  function AddToGroups(gs: seq<Group>, it: PlacedItem): (r: seq<Group>)
    ensures |gs| <= |r| <= |gs| + 1
  {
    match KeyIndex(gs, it.pageNumber)
    case None => gs + [Group(it.pageNumber, [it])]
    case Some(i) => gs[i := gs[i].(items := gs[i].items + [it])]
  }

  predicate NonEmptyGroups(gs: seq<Group>)
  {
    forall i :: 0 <= i < |gs| ==> gs[i].items != []
  }

  /** Adding an item keeps one entry per page and appends the item to the list of its own page only. */
  lemma AddToGroupsSpec(gs: seq<Group>, it: PlacedItem)
    requires DistinctKeys(gs) && NonEmptyGroups(gs)
    ensures var r := AddToGroups(gs, it);
      && DistinctKeys(r) && NonEmptyGroups(r)
      && forall k :: ItemsOf(r, k) == ItemsOf(gs, k) + (if it.pageNumber == k then [it] else [])
  {
    var p := it.pageNumber;
    var r := AddToGroups(gs, it);
    match KeyIndex(gs, p)
    case None =>
      assert r == gs + [Group(p, [it])];
      assert DistinctKeys(r);
      forall k ensures ItemsOf(r, k) == ItemsOf(gs, k) + (if p == k then [it] else []) {
        ItemsOfSnoc(gs, Group(p, [it]), k);
      }
    case Some(i) =>
      assert forall j :: 0 <= j < |r| ==> r[j].page == gs[j].page;
      assert DistinctKeys(r);
      forall k ensures ItemsOf(r, k) == ItemsOf(gs, k) + (if p == k then [it] else []) {
        if k == p {
          ItemsOfAt(r, i);
          ItemsOfAt(gs, i);
        } else {
          match KeyIndex(gs, k)
          case None =>
            assert forall j :: 0 <= j < |r| ==> r[j].page != k;
          case Some(j) =>
            ItemsOfAt(gs, j);
            ItemsOfAt(r, j);
        }
      }
  }

  /** The map built by the first loop of the export, one item at a time. */
  function GroupByPage(items: seq<PlacedItem>): (gs: seq<Group>)
    ensures |gs| <= |items|
  {
    if items == [] then []
    else AddToGroups(GroupByPage(items[..|items| - 1]), items[|items| - 1])
  }

  /** Grouping keeps one entry per page number, and the entry of page `k`
      holds exactly the items placed on page `k`, in placement order. */
  lemma {:induction false} GroupByPageSpec(items: seq<PlacedItem>)
    ensures var gs := GroupByPage(items);
      && DistinctKeys(gs) && NonEmptyGroups(gs)
      && forall k :: ItemsOf(gs, k) == OnPage(items, k)
  {
    if items != [] {
      var prefix, last := items[..|items| - 1], items[|items| - 1];
      GroupByPageSpec(prefix);
      AddToGroupsSpec(GroupByPage(prefix), last);
    }
  }

  // ---------------------------------------------------------------- rendering

  /** Drawing one entry: a page number with no page behind it is skipped. */
  function RenderGroup(pages: seq<Page>, g: Group): (r: seq<Page>)
    ensures |r| == |pages|
  {
    if 1 <= g.page <= |pages| then
      var pg := pages[g.page - 1];
      pages[g.page - 1 := pg.(ops := pg.ops + OpsOf(g.items, pg.width, pg.height))]
    else pages
  }

  /** The second loop: the entries drawn in map order. */
  function RenderAll(pages: seq<Page>, gs: seq<Group>): (r: seq<Page>)
    ensures |r| == |pages|
  {
    if gs == [] then pages else RenderGroup(RenderAll(pages, gs[..|gs| - 1]), gs[|gs| - 1])
  }

  /** After drawing, page `p` keeps its size and its earlier content, followed by the
      operations of the items stored under page number `p + 1`. */
  lemma {:induction false} RenderAllPage(pages: seq<Page>, gs: seq<Group>, p: nat)
    requires DistinctKeys(gs) && p < |pages|
    ensures var pg := pages[p];
      RenderAll(pages, gs)[p] == pg.(ops := pg.ops + OpsOf(ItemsOf(gs, p + 1), pg.width, pg.height))
  {
    var pg := pages[p];
    if gs == [] {
      assert ItemsOf(gs, p + 1) == [];
      assert pg.ops + [] == pg.ops;
    } else {
      DistinctKeysPrefix(gs);
      RenderAllPage(pages, gs[..|gs| - 1], p);
      RenderAllPageStep(pages, gs, p);
    }
  }

  /** The step of `RenderAllPage`: drawing the last entry after the others. */
  lemma RenderAllPageStep(pages: seq<Page>, gs: seq<Group>, p: nat)
    requires DistinctKeys(gs) && gs != [] && p < |pages|
    requires KeyIndex(gs[..|gs| - 1], gs[|gs| - 1].page).None?
    requires var pg := pages[p];
      RenderAll(pages, gs[..|gs| - 1])[p] == pg.(ops := pg.ops + OpsOf(ItemsOf(gs[..|gs| - 1], p + 1), pg.width, pg.height))
    ensures var pg := pages[p];
      RenderAll(pages, gs)[p] == pg.(ops := pg.ops + OpsOf(ItemsOf(gs, p + 1), pg.width, pg.height))
  {
    var pg := pages[p];
    var prefix, last := gs[..|gs| - 1], gs[|gs| - 1];
    var mid := RenderAll(pages, prefix);
    assert RenderAll(pages, gs) == RenderGroup(mid, last);
    RenderGroupPage(mid, last, p);
    ItemsOfLast(gs, p + 1);
    if last.page == p + 1 {
      assert ItemsOf(prefix, p + 1) == [];
      assert OpsOf([], pg.width, pg.height) == [];
      assert mid[p] == pg;
    }
  }

  lemma ItemsOfLast(gs: seq<Group>, k: int)
    requires DistinctKeys(gs) && gs != []
    ensures ItemsOf(gs, k) == if gs[|gs| - 1].page == k then gs[|gs| - 1].items else ItemsOf(gs[..|gs| - 1], k)
  {
    assert gs == gs[..|gs| - 1] + [gs[|gs| - 1]];
    ItemsOfSnoc(gs[..|gs| - 1], gs[|gs| - 1], k);
  }

  /** Drawing one entry touches only the page its number names. */
  lemma RenderGroupPage(pages: seq<Page>, g: Group, p: nat)
    requires p < |pages|
    ensures RenderGroup(pages, g)[p]
      == if g.page == p + 1 then pages[p].(ops := pages[p].ops + OpsOf(g.items, pages[p].width, pages[p].height))
         else pages[p]
  {
  }

  /** Without its last entry the keys stay distinct, and none of them is the last entry's. */
  lemma DistinctKeysPrefix(gs: seq<Group>)
    requires DistinctKeys(gs) && gs != []
    ensures DistinctKeys(gs[..|gs| - 1])
    ensures KeyIndex(gs[..|gs| - 1], gs[|gs| - 1].page).None?
  {
    var prefix := gs[..|gs| - 1];
    assert forall j :: 0 <= j < |prefix| ==> prefix[j] == gs[j];
  }

  /** `${baseName}_signe.pdf`, the base name being the file's name without its ".pdf". */
  function SignedFileName(name: string): (r: string)
    ensures r == StripPdfSuffix(name) + "_signe.pdf"
  {
    StripPdfSuffix(name) + "_signe.pdf"
  }

  lemma SignedFileNameOf(base: string)
    ensures SignedFileName(base + ".pdf") == base + "_signe.pdf"
  {
    StripPdfSuffixOfAppended(base);
  }

  /** The first loop of the export: the items grouped by page number. */
  method GroupItems(items: seq<PlacedItem>) returns (groups: seq<Group>)
    ensures DistinctKeys(groups) && NonEmptyGroups(groups)
    ensures forall k :: ItemsOf(groups, k) == OnPage(items, k)
  {
    groups := [];
    var i := 0;
    while i < |items|
      invariant 0 <= i <= |items|
      invariant groups == GroupByPage(items[..i])
    {
      assert items[..i + 1][..i] == items[..i];
      groups := AddToGroups(groups, items[i]);
      i := i + 1;
    }
    assert items[..|items|] == items;
    GroupByPageSpec(items);
  }

  /** One item drawn on its page: the image in its box, then the timestamp
      label below it when there is one. */
  method DrawItem(page: Page, it: PlacedItem) returns (r: Page)
    ensures r.width == page.width && r.height == page.height
    ensures r.ops == page.ops + ItemOps(it, page.width, page.height)
  {
    var b := ExportBox(it, page.width, page.height);
    r := AppendOp(page, DrawImageIn(it.image, b));
    if it.timestamp != "" {
      var size := LabelSize(b.width);
      r := AppendOp(r, DrawText(it.timestamp, b.x, b.y - size - 3.0, size, Helvetica, Some(STAMP_GREY)));
    }
  }

  lemma OpsOfSnoc(items: seq<PlacedItem>, j: nat, pageW: real, pageH: real)
    requires j < |items|
    ensures OpsOf(items[..j + 1], pageW, pageH) == OpsOf(items[..j], pageW, pageH) + ItemOps(items[j], pageW, pageH)
  {
    assert items[..j + 1][..j] == items[..j];
  }

  /** The inner loop of the export: the items of one entry drawn on their page, in order. */
  method DrawItems(page: Page, items: seq<PlacedItem>) returns (r: Page)
    ensures r.width == page.width && r.height == page.height
    ensures r.ops == page.ops + OpsOf(items, page.width, page.height)
  {
    r := page;
    var j := 0;
    while j < |items|
      invariant 0 <= j <= |items|
      invariant r == page.(ops := page.ops + OpsOf(items[..j], page.width, page.height))
    {
      r := DrawItem(r, items[j]);
      OpsOfSnoc(items, j, page.width, page.height);
      j := j + 1;
    }
    assert items[..|items|] == items;
  }

  /** The download: nothing when no file is loaded or no item is placed;
      otherwise every page keeps its content and gains, in placement order,
      the drawing of the items placed on it; items on a page number the
      document does not have are dropped. */
  method Download(fileName: Option<string>, pages: seq<Page>, items: seq<PlacedItem>)
    returns (r: Option<SignedPdf>)
    ensures r.None? <==> fileName.None? || items == []
    ensures r.Some? ==>
      && r.value.fileName == SignedFileName(fileName.value)
      && |r.value.pages| == |pages|
      && forall p :: 0 <= p < |pages| ==>
        r.value.pages[p] == pages[p].(ops := pages[p].ops
                                            + OpsOf(OnPage(items, p + 1), pages[p].width, pages[p].height))
  {
    if fileName.None? || |items| == 0 {
      return None;
    }
    var groups := GroupItems(items);
    var doc := pages;
    var e := 0;
    while e < |groups|
      invariant 0 <= e <= |groups|
      invariant doc == RenderAll(pages, groups[..e])
    {
      var g := groups[e];
      assert groups[..e + 1][..e] == groups[..e];
      if 1 <= g.page <= |doc| {
        var page := DrawItems(doc[g.page - 1], g.items);
        doc := doc[g.page - 1 := page];
      }
      e := e + 1;
    }
    assert groups[..|groups|] == groups;
    forall p | 0 <= p < |pages|
      ensures doc[p] == pages[p].(ops := pages[p].ops
                                         + OpsOf(OnPage(items, p + 1), pages[p].width, pages[p].height))
    {
      RenderAllPage(pages, groups, p);
    }
    return Some(SignedPdf(doc, SignedFileName(fileName.value)));
  }
}
