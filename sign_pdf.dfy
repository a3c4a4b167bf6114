/** The placement engine of the signing page: signatures and stamps placed on
    the pages in percentage space (top-left anchor, width as a fraction of the
    page width), with placement, drag, resize, the width slider and removal. */
module SignPdf {
  import opened Common
  import opened PdfModel

  datatype ItemKind = SignatureItem | StampItem

  datatype PlacedItem = PlacedItem(
    id: string,
    kind: ItemKind,
    pageNumber: int,
    xPercent: real,
    yPercent: real,
    widthPercent: real,
    image: Image,
    timestamp: string)

  /** The local time read from `new Date()` when an item is placed; `month` is `getMonth()`, 0 to 11. */
  datatype DateTime = DateTime(day: nat, month: nat, year: nat, hours: nat, minutes: nat, seconds: nat)

  datatype DragMode = MoveMode | ResizeMode

  const MIN_WIDTH: real := 0.05
  const MAX_WIDTH: real := 0.7
  const MAX_POS: real := 0.95

  /** The bounds every placed item keeps under every operation of the editor. */
  predicate InBounds(it: PlacedItem)
  {
    && 0.0 <= it.xPercent <= MAX_POS
    && 0.0 <= it.yPercent <= MAX_POS
    && MIN_WIDTH <= it.widthPercent <= MAX_WIDTH
  }

  predicate AllInBounds(items: seq<PlacedItem>)
  {
    forall i :: 0 <= i < |items| ==> InBounds(items[i])
  }

  predicate UniqueIds(items: seq<PlacedItem>)
  {
    forall i, j :: 0 <= i < j < |items| ==> items[i].id != items[j].id
  }

  function DefaultWidth(kind: ItemKind): (w: real)
    ensures kind == StampItem ==> w == 0.15
    ensures kind == SignatureItem ==> w == 0.2
  {
    if kind == StampItem then 0.15 else 0.2
  }

  /** The anchor of a new item: the click point moved left by 0.1 and up by
      0.025 so that it falls inside the item, then clamped. */
  function PlaceAnchor(clickX: real, clickY: real): (a: (real, real))
    ensures 0.0 <= a.0 <= 0.8 && 0.0 <= a.1 <= 0.9
    ensures 0.0 <= clickX - 0.1 <= 0.8 ==> a.0 == clickX - 0.1
    ensures 0.0 <= clickY - 0.025 <= 0.9 ==> a.1 == clickY - 0.025
    ensures clickX - 0.1 < 0.0 ==> a.0 == 0.0
    ensures clickY - 0.025 < 0.0 ==> a.1 == 0.0
  {
    (Clamp(clickX - 0.1, 0.0, 0.8), Clamp(clickY - 0.025, 0.0, 0.9))
  }

  /** "dd/mm/yyyy à hh:mi:ss", every field but the year padded to two digits. */
  function DateText(now: DateTime): string
  {
    PadTwo(now.day) + "/" + PadTwo(now.month + 1) + "/" + NatToString(now.year)
      + " à " + PadTwo(now.hours) + ":" + PadTwo(now.minutes) + ":" + PadTwo(now.seconds)
  }

  const SIGNED_PREFIX: string := "Signé le "
  const CERTIFIED_PREFIX: string := "Certifié le "

  /** The label drawn under an item: empty unless the plan allows time-stamping. */
  function TimestampLabel(kind: ItemKind, canUseTimestamp: bool, now: DateTime): (s: string)
    ensures !canUseTimestamp ==> s == ""
    ensures canUseTimestamp && kind == SignatureItem ==>
      |s| > |SIGNED_PREFIX| && s[..|SIGNED_PREFIX|] == SIGNED_PREFIX
    ensures canUseTimestamp && kind == StampItem ==>
      |s| > |CERTIFIED_PREFIX| && s[..|CERTIFIED_PREFIX|] == CERTIFIED_PREFIX
  {
    if !canUseTimestamp then ""
    else if kind == SignatureItem then SIGNED_PREFIX + DateText(now)
    else CERTIFIED_PREFIX + DateText(now)
  }

  predicate ValidDate(now: DateTime)
  {
    1 <= now.day <= 31 && now.month < 12 && 1000 <= now.year <= 9999
    && now.hours < 24 && now.minutes < 60 && now.seconds < 60
  }

  /** Where each part of the date text lies: two-digit fields, a four-digit
      year and the separators at fixed positions. */
  lemma DateTextLayout(now: DateTime)
    requires ValidDate(now)
    ensures var t := DateText(now);
      && |t| == 21
      && t[2] == '/' && t[5] == '/' && t[10..13] == " à " && t[15] == ':' && t[18] == ':'
      && t[0..2] == PadTwo(now.day) && t[3..5] == PadTwo(now.month + 1) && t[6..10] == NatToString(now.year)
      && t[13..15] == PadTwo(now.hours) && t[16..18] == PadTwo(now.minutes) && t[19..21] == PadTwo(now.seconds)
  {
    YearHasFourDigits(now.year);
    JoinedLayout(PadTwo(now.day), PadTwo(now.month + 1), NatToString(now.year),
                 PadTwo(now.hours), PadTwo(now.minutes), PadTwo(now.seconds));
  }

  /** The layout of "dd/mm/yyyy à hh:mm:ss" for any fields of those lengths. */
  lemma JoinedLayout(dd: string, mm: string, yy: string, hh: string, mi: string, ss: string)
    requires |dd| == 2 && |mm| == 2 && |yy| == 4 && |hh| == 2 && |mi| == 2 && |ss| == 2
    ensures var t := dd + "/" + mm + "/" + yy + " à " + hh + ":" + mi + ":" + ss;
      && |t| == 21
      && t[2] == '/' && t[5] == '/' && t[10..13] == " à " && t[15] == ':' && t[18] == ':'
      && t[0..2] == dd && t[3..5] == mm && t[6..10] == yy
      && t[13..15] == hh && t[16..18] == mi && t[19..21] == ss
  {
    var date := dd + "/" + mm + "/" + yy;
    var time := hh + ":" + mi + ":" + ss;
    TwoSeparatedFields(dd, mm, yy, '/');
    TwoSeparatedFields(hh, mi, ss, ':');
    var t := dd + "/" + mm + "/" + yy + " à " + hh + ":" + mi + ":" + ss;
    assert t == date + " à " + time;
    assert t[..10] == date && t[10..13] == " à " && t[13..] == time;
    assert t[0..2] == date[0..2] && t[2] == date[2] && t[3..5] == date[3..5];
    assert t[5] == date[5] && t[6..10] == date[6..];
    assert t[13..15] == time[0..2] && t[15] == time[2] && t[16..18] == time[3..5];
    assert t[18] == time[5] && t[19..21] == time[6..];
  }

  /** `a` and `b` of two characters each, then `c`, separated by `sep`. */
  lemma TwoSeparatedFields(a: string, b: string, c: string, sep: char)
    requires |a| == 2 && |b| == 2
    ensures var t := a + [sep] + b + [sep] + c;
      && |t| == 6 + |c| && t[2] == sep && t[5] == sep
      && t[0..2] == a && t[3..5] == b && t[6..] == c
  {
  }

  /** Every field of the date text sits at a fixed place and reads back as the clock's value. */
  lemma DateTextFields(now: DateTime)
    requires ValidDate(now)
    ensures var t := DateText(now);
      && |t| == 21
      && t[2] == '/' && t[5] == '/' && t[10..13] == " à " && t[15] == ':' && t[18] == ':'
      && AllDigits(t[0..2]) && DecimalValue(t[0..2]) == now.day
      && AllDigits(t[3..5]) && DecimalValue(t[3..5]) == now.month + 1
      && AllDigits(t[6..10]) && DecimalValue(t[6..10]) == now.year
      && AllDigits(t[13..15]) && DecimalValue(t[13..15]) == now.hours
      && AllDigits(t[16..18]) && DecimalValue(t[16..18]) == now.minutes
      && AllDigits(t[19..21]) && DecimalValue(t[19..21]) == now.seconds
  {
    DateTextLayout(now);
    PadTwoRoundTrip(now.day);
    PadTwoRoundTrip(now.month + 1);
    DecimalRoundTrip(now.year);
    PadTwoRoundTrip(now.hours);
    PadTwoRoundTrip(now.minutes);
    PadTwoRoundTrip(now.seconds);
  }

  lemma YearHasFourDigits(y: nat)
    requires 1000 <= y <= 9999
    ensures |NatToString(y)| == 4
  {
    assert |NatToString(y / 10)| == 3 by {
      assert |NatToString(y / 100)| == 2;
    }
  }

  /** The item a click creates. */
  function NewItem(id: string, kind: ItemKind, page: int, clickX: real, clickY: real,
                   image: Image, canUseTimestamp: bool, now: DateTime): (it: PlacedItem)
    ensures InBounds(it) && it.xPercent <= 0.8 && it.yPercent <= 0.9
    ensures it.id == id && it.kind == kind && it.pageNumber == page && it.image == image
    ensures it.widthPercent == DefaultWidth(kind)
    ensures (it.xPercent, it.yPercent) == PlaceAnchor(clickX, clickY)
    ensures it.timestamp == TimestampLabel(kind, canUseTimestamp, now)
  {
    var a := PlaceAnchor(clickX, clickY);
    PlacedItem(id, kind, page, a.0, a.1, DefaultWidth(kind), image, TimestampLabel(kind, canUseTimestamp, now))
  }

  /** `placedItems.find(s => s.id === id)`: the first item with that id. */
  function FindItem(items: seq<PlacedItem>, id: string): (r: Option<nat>)
    ensures r.Some? ==>
      && r.value < |items| && items[r.value].id == id
      && forall j :: 0 <= j < r.value ==> items[j].id != id
    ensures r.None? ==> forall j :: 0 <= j < |items| ==> items[j].id != id
  {
    if items == [] then None
    else if items[0].id == id then Some(0)
    else match FindItem(items[1..], id)
      case None => None
      case Some(k) => Some(k + 1)
  }

  predicate IsSelected(it: PlacedItem, selected: Option<string>)
  {
    selected == Some(it.id)
  }

  /** The drag step: every selected item takes the origin plus the pointer
      delta on both axes, each clamped to [0, 0.95]; nothing else changes. */
  function MoveSelected(items: seq<PlacedItem>, selected: Option<string>,
                        originX: real, originY: real, dx: real, dy: real): (r: seq<PlacedItem>)
    ensures |r| == |items|
    ensures forall i :: 0 <= i < |items| && !IsSelected(items[i], selected) ==> r[i] == items[i]
    ensures forall i :: 0 <= i < |items| && IsSelected(items[i], selected) ==>
      && r[i] == items[i].(xPercent := r[i].xPercent, yPercent := r[i].yPercent)
      && r[i].xPercent == Clamp(originX + dx, 0.0, MAX_POS)
      && r[i].yPercent == Clamp(originY + dy, 0.0, MAX_POS)
  {
    seq(|items|, i requires 0 <= i < |items| =>
      if !IsSelected(items[i], selected) then items[i]
      else items[i].(xPercent := Clamp(originX + dx, 0.0, MAX_POS),
                     yPercent := Clamp(originY + dy, 0.0, MAX_POS)))
  }

  /** The resize step: every selected item takes the origin width plus the
      horizontal delta, clamped to [0.05, 0.70]; positions do not change. */
  function ResizeSelected(items: seq<PlacedItem>, selected: Option<string>,
                          originW: real, dx: real): (r: seq<PlacedItem>)
    ensures |r| == |items|
    ensures forall i :: 0 <= i < |items| && !IsSelected(items[i], selected) ==> r[i] == items[i]
    ensures forall i :: 0 <= i < |items| && IsSelected(items[i], selected) ==>
      && r[i] == items[i].(widthPercent := r[i].widthPercent)
      && r[i].widthPercent == Clamp(originW + dx, MIN_WIDTH, MAX_WIDTH)
  {
    seq(|items|, i requires 0 <= i < |items| =>
      if !IsSelected(items[i], selected) then items[i]
      else items[i].(widthPercent := Clamp(originW + dx, MIN_WIDTH, MAX_WIDTH)))
  }

  /** The sidebar slider: a range input from 5 to 60, read as a percentage. */
  function SetWidth(items: seq<PlacedItem>, id: string, n: int): (r: seq<PlacedItem>)
    requires 5 <= n <= 60
    ensures |r| == |items|
    ensures forall i :: 0 <= i < |items| && items[i].id != id ==> r[i] == items[i]
    ensures forall i :: 0 <= i < |items| && items[i].id == id ==>
      r[i] == items[i].(widthPercent := n as real / 100.0)
  {
    seq(|items|, i requires 0 <= i < |items| =>
      if items[i].id == id then items[i].(widthPercent := n as real / 100.0) else items[i])
  }

  /** `prev.filter(s => s.id !== id)`. */
  function RemoveItem(items: seq<PlacedItem>, id: string): (r: seq<PlacedItem>)
    ensures |r| <= |items|
    ensures forall i :: 0 <= i < |r| ==> r[i].id != id && r[i] in items
    ensures forall x :: x in items && x.id != id ==> x in r
  {
    if items == [] then []
    else (if items[0].id == id then [] else [items[0]]) + RemoveItem(items[1..], id)
  }

  /** Removal works element by element, so the items kept stay in their order. */
  lemma {:induction false} RemoveItemDistributes(a: seq<PlacedItem>, b: seq<PlacedItem>, id: string)
    ensures RemoveItem(a + b, id) == RemoveItem(a, id) + RemoveItem(b, id)
  {
    if a == [] {
      assert a + b == b;
    } else {
      assert (a + b)[1..] == a[1..] + b;
      RemoveItemDistributes(a[1..], b, id);
    }
  }

  /** With unique ids, removing a present id deletes exactly one item: the
      list becomes the items before it followed by the items after it. */
  lemma {:induction false} RemoveItemExactlyOne(items: seq<PlacedItem>, k: nat)
    requires UniqueIds(items) && k < |items|
    ensures RemoveItem(items, items[k].id) == items[..k] + items[k + 1..]
  {
    var id := items[k].id;
    var before, after := items[..k], items[k + 1..];
    assert items == before + ([items[k]] + after);
    RemoveItemDistributes(before, [items[k]] + after, id);
    assert RemoveItem([items[k]] + after, id) == RemoveItem(after, id) by {
      assert ([items[k]] + after)[1..] == after;
    }
    assert forall i :: 0 <= i < |before| ==> before[i].id != id by {
      forall i | 0 <= i < |before| ensures before[i].id != id {
        assert before[i] == items[i];
      }
    }
    RemoveItemKeepsAll(before, id);
    assert forall i :: 0 <= i < |after| ==> after[i].id != id by {
      forall i | 0 <= i < |after| ensures after[i].id != id {
        assert after[i] == items[k + 1 + i];
      }
    }
    RemoveItemKeepsAll(after, id);
  }

  lemma {:induction false} RemoveItemKeepsAll(items: seq<PlacedItem>, id: string)
    requires forall i :: 0 <= i < |items| ==> items[i].id != id
    ensures RemoveItem(items, id) == items
  {
    if items != [] {
      RemoveItemKeepsAll(items[1..], id);
    }
  }

  /** Removal is idempotent: removing the same id twice is the same as once. */
  lemma RemoveItemIdempotent(items: seq<PlacedItem>, id: string)
    ensures RemoveItem(RemoveItem(items, id), id) == RemoveItem(items, id)
  {
    RemoveItemKeepsAll(RemoveItem(items, id), id);
  }

  /** The state of the signing page: the placed items, the selection, the
      placing mode, the drag/resize flags and the drag origin kept in refs. */
  class SignEditor {
    var items: seq<PlacedItem>
    var selected: Option<string>
    var placing: bool
    var placingKind: ItemKind
    var active: Option<Image>
    var currentPage: int
    var canUseTimestamp: bool
    var dragging: bool
    var resizing: bool
    var dragStartX: real
    var dragStartY: real
    var originX: real
    var originY: real
    var originW: real

    ghost predicate Valid()
      reads this
    {
      AllInBounds(items)
    }

    constructor ()
      ensures Valid()
      ensures items == [] && selected == None && !placing && placingKind == SignatureItem
      ensures active == None && currentPage == 1 && !canUseTimestamp && !dragging && !resizing
    {
      items := [];
      selected := None;
      placing := false;
      placingKind := SignatureItem;
      active := None;
      currentPage := 1;
      canUseTimestamp := false;
      dragging := false;
      resizing := false;
      dragStartX, dragStartY := 0.0, 0.0;
      originX, originY, originW := 0.0, 0.0, 0.0;
    }

    /** The entitlement read once from the usage route when the page opens. */
    method SetEntitlement(canUse: bool)
      requires Valid()
      modifies this`canUseTimestamp
      ensures Valid() && canUseTimestamp == canUse
    {
      canUseTimestamp := canUse;
    }

    /** A new file resets the page number, the items and the selection. */
    method OpenFile()
      requires Valid()
      modifies this`currentPage, this`items, this`selected
      ensures Valid() && currentPage == 1 && items == [] && selected == None
    {
      currentPage := 1;
      items := [];
      selected := None;
    }

    /** Choosing a signature or stamp to place turns placing mode on. */
    method UseItem(image: Image, kind: ItemKind)
      requires Valid()
      modifies this`active, this`placingKind, this`placing
      ensures Valid() && active == Some(image) && placingKind == kind && placing
    {
      active := Some(image);
      placingKind := kind;
      placing := true;
    }

    /** A click on the page: when placing is on, an image is chosen and no drag
        or resize is running, exactly one item is appended, selected, and
        placing turns off; otherwise nothing changes. */
    method CanvasClick(id: string, clientX: real, clientY: real, rect: ClientRect, now: DateTime)
      requires Valid() && Mounted(rect)
      modifies this`items, this`selected, this`placing
      ensures Valid()
      ensures !old(placing) || old(active).None? || old(dragging) || old(resizing) ==>
        items == old(items) && selected == old(selected) && placing == old(placing)
      ensures old(placing) && old(active).Some? && !old(dragging) && !old(resizing) ==>
        && items == old(items) + [NewItem(id, placingKind, currentPage,
                                          (clientX - rect.left) / rect.width,
                                          (clientY - rect.top) / rect.height,
                                          old(active).value, canUseTimestamp, now)]
        && selected == Some(id)
        && !placing
    {
      if !placing || active.None? {
        return;
      }
      if dragging || resizing {
        return;
      }
      var xPercent := (clientX - rect.left) / rect.width;
      var yPercent := (clientY - rect.top) / rect.height;
      var item := NewItem(id, placingKind, currentPage, xPercent, yPercent,
                          active.value, canUseTimestamp, now);
      items := items + [item];
      selected := Some(id);
      placing := false;
    }

    /** Pressing on an item (its body to move, its corner to resize) selects
        it and snapshots the pointer and the item's position and width. */
    method ItemMouseDown(itemId: string, clientX: real, clientY: real, mode: DragMode)
      requires Valid()
      modifies this`selected, this`dragStartX, this`dragStartY, this`originX, this`originY,
               this`originW, this`dragging, this`resizing
      ensures Valid()
      ensures FindItem(items, itemId).None? ==>
        && selected == old(selected) && dragging == old(dragging) && resizing == old(resizing)
        && originX == old(originX) && originY == old(originY) && originW == old(originW)
        && dragStartX == old(dragStartX) && dragStartY == old(dragStartY)
      ensures FindItem(items, itemId).Some? ==>
        var it := items[FindItem(items, itemId).value];
        && selected == Some(itemId)
        && dragStartX == clientX && dragStartY == clientY
        && originX == it.xPercent && originY == it.yPercent && originW == it.widthPercent
        && dragging == (mode == MoveMode || old(dragging))
        && resizing == (mode == ResizeMode || old(resizing))
    {
      var k := FindItem(items, itemId);
      if k.None? {
        return;
      }
      var it := items[k.value];
      selected := Some(itemId);
      dragStartX, dragStartY := clientX, clientY;
      originX, originY, originW := it.xPercent, it.yPercent, it.widthPercent;
      if mode == MoveMode {
        dragging := true;
      } else {
        resizing := true;
      }
    }

    /** A pointer move while dragging or resizing, with deltas measured as
        fractions of the page canvas; only the selected item changes. */
    method MouseMove(clientX: real, clientY: real, rect: ClientRect)
      requires Valid() && Mounted(rect)
      modifies this`items
      ensures Valid()
      ensures var dx := (clientX - dragStartX) / rect.width;
              var dy := (clientY - dragStartY) / rect.height;
        items == if dragging then MoveSelected(old(items), selected, originX, originY, dx, dy)
                 else if resizing then ResizeSelected(old(items), selected, originW, dx)
                 else old(items)
    {
      if !dragging && !resizing {
        return;
      }
      var dx := (clientX - dragStartX) / rect.width;
      var dy := (clientY - dragStartY) / rect.height;
      if dragging {
        items := MoveSelected(items, selected, originX, originY, dx, dy);
      } else {
        items := ResizeSelected(items, selected, originW, dx);
      }
    }

    method MouseUp()
      requires Valid()
      modifies this`dragging, this`resizing
      ensures Valid() && !dragging && !resizing
    {
      dragging := false;
      resizing := false;
    }

    /** The width slider of the selected item in the sidebar. */
    method SlideWidth(itemId: string, n: int)
      requires Valid() && 5 <= n <= 60
      modifies this`items
      ensures Valid() && items == SetWidth(old(items), itemId, n)
    {
      items := SetWidth(items, itemId, n);
    }

    /** Removing an item clears the selection only when that item was selected. */
    method RemovePlaced(id: string)
      requires Valid()
      modifies this`items, this`selected
      ensures Valid() && items == RemoveItem(old(items), id)
      ensures selected == if old(selected) == Some(id) then None else old(selected)
    {
      items := RemoveItem(items, id);
      if selected == Some(id) {
        selected := None;
      }
    }
  }
}
