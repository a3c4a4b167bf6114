/** The AcroForm side of the form-filling page: reading the interactive
    fields of a document into editable entries, and writing edited entries
    back into the form before download. */
module FormFields {
  import opened Common

  datatype Rect = Rect(x: real, y: real, width: real, height: real)

  /** The field classes pdf-lib distinguishes; `OtherKind` stands for the
      classes the page ignores (buttons, radio groups, option lists, signatures).
      A text field carries its /MaxLen, when it has one. */
  datatype FieldKind =
    | TextKind(text: Option<string>, maxLength: Option<nat>)
    | CheckKind(checked: bool)
    | DropdownKind(options: seq<string>, selected: seq<string>)
    | OtherKind

  /** A field of the document's form: its fully qualified name, its class and
      value, and the rectangles of its widgets. */
  datatype AcroField = AcroField(name: string, kind: FieldKind, widgets: seq<Rect>)

  datatype FieldType = TextType | CheckboxType | DropdownType

  /** An entry of the sidebar: the value is always a string, "true"/"false" for a checkbox. */
  datatype FormField = FormField(
    name: string,
    fieldType: FieldType,
    value: string,
    options: Option<seq<string>>,
    page: nat,
    rect: Option<Rect>)

  /** Names in a PDF form are fully qualified and therefore distinct. */
  predicate UniqueNames(form: seq<AcroField>)
  {
    forall i, j :: 0 <= i < j < |form| ==> form[i].name != form[j].name
  }

  // ---------------------------------------------------------------- extraction

  /** The index of the first page whose dictionary has an /Annots entry, 0 when none has. */
  function FirstAnnotsPage(annots: seq<bool>): (p: nat)
    ensures true in annots ==> p < |annots| && annots[p] && forall j :: 0 <= j < p ==> !annots[j]
    ensures true !in annots ==> p == 0
  {
    if annots == [] then 0
    else if annots[0] then 0
    else if true in annots[1..] then FirstAnnotsPage(annots[1..]) + 1
    else 0
  }

  /** The page an entry is shown on: the scan runs only for a field with a widget. */
  function FieldPage(f: AcroField, annots: seq<bool>): nat
  {
    if |f.widgets| > 0 then FirstAnnotsPage(annots) else 0
  }

  function FieldRect(f: AcroField): Option<Rect>
  {
    if |f.widgets| > 0 then Some(f.widgets[0]) else None
  }

  /** The entry a field becomes, if its class is one the page edits. */
  function Classify(f: AcroField, annots: seq<bool>): (r: Option<FormField>)
    ensures r.Some? <==> !f.kind.OtherKind?
    ensures r.Some? ==> r.value.name == f.name && r.value.page == FieldPage(f, annots)
                        && r.value.rect == FieldRect(f)
  {
    var page, rect := FieldPage(f, annots), FieldRect(f);
    match f.kind
    case TextKind(text, _) =>
      Some(FormField(f.name, TextType, if text.Some? then text.value else "", None, page, rect))
    case CheckKind(checked) =>
      Some(FormField(f.name, CheckboxType, if checked then "true" else "false", None, page, rect))
    case DropdownKind(options, selected) =>
      Some(FormField(f.name, DropdownType, if |selected| > 0 then selected[0] else "", Some(options), page, rect))
    case OtherKind => None
  }

  /** The entries of a form, in the form's field order. */
  function ExtractAll(form: seq<AcroField>, annots: seq<bool>): (r: seq<FormField>)
    ensures |r| <= |form|
  {
    if form == [] then []
    else
      var last := Classify(form[|form| - 1], annots);
      ExtractAll(form[..|form| - 1], annots) + (if last.Some? then [last.value] else [])
  }

  /** Each page scan stops at the first page with annotations. */
  method FindAnnotsPage(annots: seq<bool>) returns (page: nat)
    ensures page == FirstAnnotsPage(annots)
  {
    page := 0;
    var i := 0;
    while i < |annots|
      invariant 0 <= i <= |annots|
      invariant forall j :: 0 <= j < i ==> !annots[j]
    {
      if annots[i] {
        page := i;
        break;
      }
      i := i + 1;
    }
  }

  /** Reading the form when a file is opened. */
  method ExtractFormFields(form: seq<AcroField>, annots: seq<bool>) returns (extracted: seq<FormField>)
    ensures extracted == ExtractAll(form, annots)
  {
    extracted := [];
    var i := 0;
    while i < |form|
      invariant 0 <= i <= |form|
      invariant extracted == ExtractAll(form[..i], annots)
    {
      assert form[..i + 1][..i] == form[..i];
      var f := form[i];
      var page := 0;
      var rect: Option<Rect> := None;
      if |f.widgets| > 0 {
        rect := Some(f.widgets[0]);
        page := FindAnnotsPage(annots);
      }
      match f.kind {
        case TextKind(text, _) =>
          extracted := extracted + [FormField(f.name, TextType, if text.Some? then text.value else "", None, page, rect)];
        case CheckKind(checked) =>
          extracted := extracted + [FormField(f.name, CheckboxType, if checked then "true" else "false", None, page, rect)];
        case DropdownKind(options, selected) =>
          extracted := extracted + [FormField(f.name, DropdownType, if |selected| > 0 then selected[0] else "",
                                              Some(options), page, rect)];
        case OtherKind =>
      }
      i := i + 1;
    }
    assert form[..|form|] == form;
  }

  lemma {:induction false} ExtractAllAppend(a: seq<AcroField>, b: seq<AcroField>, annots: seq<bool>)
    ensures ExtractAll(a + b, annots) == ExtractAll(a, annots) + ExtractAll(b, annots)
    decreases |b|
  {
    if b == [] {
      assert a + b == a;
    } else {
      var b' := b[..|b| - 1];
      assert (a + b)[..|a + b| - 1] == a + b';
      assert (a + b)[|a + b| - 1] == b[|b| - 1];
      ExtractAllAppend(a, b', annots);
    }
  }

  /** Every entry comes from one editable field, found at the position the
      entries before it leave. */
  lemma {:induction false} ExtractOwner(form: seq<AcroField>, annots: seq<bool>, i: nat) returns (k: nat)
    requires i < |ExtractAll(form, annots)|
    ensures k < |form| && Classify(form[k], annots) == Some(ExtractAll(form, annots)[i])
    ensures |ExtractAll(form[..k], annots)| == i
  {
    var prefix := form[..|form| - 1];
    var e := ExtractAll(prefix, annots);
    if i < |e| {
      k := ExtractOwner(prefix, annots, i);
      assert form[..k] == prefix[..k];
    } else {
      k := |form| - 1;
      assert form[..k] == prefix;
    }
  }

  /** Replacing one editable field by another editable one replaces exactly its entry. */
  lemma ExtractReplace(form: seq<AcroField>, annots: seq<bool>, k: nat, f: AcroField)
    requires k < |form| && Classify(form[k], annots).Some? && Classify(f, annots).Some?
    ensures var n := |ExtractAll(form[..k], annots)|;
      && n < |ExtractAll(form, annots)|
      && ExtractAll(form[k := f], annots) == ExtractAll(form, annots)[n := Classify(f, annots).value]
  {
    var before, after := form[..k], form[k + 1..];
    var eb, ea := ExtractAll(before, annots), ExtractAll(after, annots);
    var old1, new1 := Classify(form[k], annots).value, Classify(f, annots).value;
    assert ExtractAll(form, annots) == eb + [old1] + ea by {
      assert form == before + [form[k]] + after;
      ExtractSplit(before, form[k], after, annots);
    }
    assert ExtractAll(form[k := f], annots) == eb + [new1] + ea by {
      assert form[k := f] == before + [f] + after;
      ExtractSplit(before, f, after, annots);
    }
    UpdateMiddle(eb, old1, new1, ea);
  }

  lemma UpdateMiddle<T>(a: seq<T>, x: T, y: T, b: seq<T>)
    ensures (a + [x] + b)[|a| := y] == a + [y] + b
  {
  }

  lemma ExtractSplit(before: seq<AcroField>, f: AcroField, after: seq<AcroField>, annots: seq<bool>)
    requires Classify(f, annots).Some?
    ensures ExtractAll(before + [f] + after, annots)
         == ExtractAll(before, annots) + [Classify(f, annots).value] + ExtractAll(after, annots)
  {
    ExtractSingle(f, annots);
    ExtractAllAppend(before + [f], after, annots);
    ExtractAllAppend(before, [f], annots);
  }

  lemma ExtractSingle(f: AcroField, annots: seq<bool>)
    requires Classify(f, annots).Some?
    ensures ExtractAll([f], annots) == [Classify(f, annots).value]
  {
    assert [f][..0] == [];
  }

  /** Every extracted entry that has a rectangle claims the same page, the
      first page holding annotations, whichever field it comes from; an entry
      without a widget claims page 0. */
  lemma ExtractedPages(form: seq<AcroField>, annots: seq<bool>)
    ensures forall i :: 0 <= i < |ExtractAll(form, annots)| ==>
      var e := ExtractAll(form, annots)[i];
      e.page == (if e.rect.Some? then FirstAnnotsPage(annots) else 0)
  {
    forall i | 0 <= i < |ExtractAll(form, annots)|
      ensures var e := ExtractAll(form, annots)[i];
              e.page == (if e.rect.Some? then FirstAnnotsPage(annots) else 0)
    {
      var k := ExtractOwner(form, annots, i);
    }
  }

  /** An extracted checkbox reads "true" exactly when it is checked, and otherwise "false". */
  lemma ExtractedCheckboxes(form: seq<AcroField>, annots: seq<bool>)
    ensures forall i :: 0 <= i < |ExtractAll(form, annots)| && ExtractAll(form, annots)[i].fieldType == CheckboxType ==>
      ExtractAll(form, annots)[i].value in {"true", "false"}
  {
    forall i | 0 <= i < |ExtractAll(form, annots)| && ExtractAll(form, annots)[i].fieldType == CheckboxType
      ensures ExtractAll(form, annots)[i].value in {"true", "false"}
    {
      var k := ExtractOwner(form, annots, i);
    }
  }

  // ---------------------------------------------------------------- writing back

  /** `form.getField(name)`: the first field carrying that name. */
  function FindByName(form: seq<AcroField>, name: string): (r: Option<nat>)
    ensures r.Some? ==> r.value < |form| && form[r.value].name == name
    ensures r.None? ==> forall j :: 0 <= j < |form| ==> form[j].name != name
  {
    if form == [] then None
    else if form[0].name == name then Some(0)
    else match FindByName(form[1..], name)
      case None => None
      case Some(k) => Some(k + 1)
  }

  /** The /MaxLen of a text field; other classes have none. */
  function MaxLength(kind: FieldKind): Option<nat>
  {
    if kind.TextKind? then kind.maxLength else None
  }

  /** A text of `v`'s length is within the limit, or there is no limit. */
  predicate Fits(limit: Option<nat>, v: string)
  {
    limit.None? || |v| <= limit.value
  }

  /** Setting an entry's value on a field: `None` when the field is not of the
      entry's class (the typed getter throws) or when a text is longer than the
      field's /MaxLen (`setText` throws `ExceededMaxLengthError`). A checkbox is
      checked exactly when the value is "true"; an empty dropdown value selects
      nothing new. The field's class and limit never change. */
  function SetValue(kind: FieldKind, t: FieldType, value: string): (r: Option<FieldKind>)
    ensures r.Some? <==> (t == TextType && kind.TextKind? && Fits(kind.maxLength, value))
                         || (t == CheckboxType && kind.CheckKind?)
                         || (t == DropdownType && kind.DropdownKind?)
    ensures r.Some? ==> MaxLength(r.value) == MaxLength(kind)
  {
    match (t, kind)
    case (TextType, TextKind(_, limit)) =>
      if limit.Some? && |value| > limit.value then None else Some(TextKind(Some(value), limit))
    case (CheckboxType, CheckKind(_)) => Some(CheckKind(value == "true"))
    case (DropdownType, DropdownKind(options, _)) =>
      if value != "" then Some(DropdownKind(options, [value])) else Some(kind)
    case _ => None
  }

  /** One iteration of the write-back loop: `None` when pdf-lib throws. */
  function ApplyField(form: seq<AcroField>, e: FormField): (r: Option<seq<AcroField>>)
    ensures r.Some? ==> |r.value| == |form| && forall j :: 0 <= j < |form| ==>
      && r.value[j].name == form[j].name && r.value[j].widgets == form[j].widgets
      && MaxLength(r.value[j].kind) == MaxLength(form[j].kind)
      && (form[j].name != e.name ==> r.value[j] == form[j])
  {
    match FindByName(form, e.name)
    case None => None
    case Some(k) =>
      match SetValue(form[k].kind, e.fieldType, e.value)
      case None => None
      case Some(kind) => Some(form[k := form[k].(kind := kind)])
  }

  /** The write-back loop: each failure is caught and the loop goes on. */
  function ApplyAll(form: seq<AcroField>, entries: seq<FormField>): (r: seq<AcroField>)
    ensures |r| == |form|
    ensures forall j :: 0 <= j < |form| ==> r[j].name == form[j].name && r[j].widgets == form[j].widgets
    ensures forall j :: 0 <= j < |form| ==> MaxLength(r[j].kind) == MaxLength(form[j].kind)
  {
    if entries == [] then form
    else
      var cur := ApplyAll(form, entries[..|entries| - 1]);
      match ApplyField(cur, entries[|entries| - 1])
      case None => cur
      case Some(next) => next
  }

  method ApplyFields(form: seq<AcroField>, entries: seq<FormField>) returns (r: seq<AcroField>)
    ensures r == ApplyAll(form, entries)
  {
    r := form;
    var i := 0;
    while i < |entries|
      invariant 0 <= i <= |entries|
      invariant r == ApplyAll(form, entries[..i])
    {
      ApplyAllSnoc(form, entries, i);
      var applied := ApplyField(r, entries[i]);
      if applied.Some? {
        r := applied.value;
      }
      i := i + 1;
    }
    assert entries[..|entries|] == entries;
  }

  lemma ApplyAllSnoc(form: seq<AcroField>, entries: seq<FormField>, i: nat)
    requires i < |entries|
    ensures ApplyAll(form, entries[..i + 1]) == AfterField(ApplyAll(form, entries[..i]), entries[i])
  {
    assert entries[..i + 1][..i] == entries[..i];
  }

  /** An entry naming no field of the form leaves the form as it is. */
  lemma ApplyUnknownName(form: seq<AcroField>, e: FormField)
    requires forall j :: 0 <= j < |form| ==> form[j].name != e.name
    ensures ApplyField(form, e).None?
  {
  }

  /** The /MaxLen of the field an entry names, if that field has one. */
  function LimitOf(form: seq<AcroField>, name: string): Option<nat>
  {
    match FindByName(form, name)
    case None => None
    case Some(k) => MaxLength(form[k].kind)
  }

  /** Two forms whose fields carry the same names and limits give every name the same limit. */
  lemma {:induction false} SameLimits(a: seq<AcroField>, b: seq<AcroField>, name: string)
    requires |a| == |b|
    requires forall j :: 0 <= j < |a| ==> a[j].name == b[j].name && MaxLength(a[j].kind) == MaxLength(b[j].kind)
    ensures LimitOf(a, name) == LimitOf(b, name)
  {
    SameNamesSameIndex(a, b, name);
  }

  lemma {:induction false} SameNamesSameIndex(a: seq<AcroField>, b: seq<AcroField>, name: string)
    requires |a| == |b| && forall j :: 0 <= j < |a| ==> a[j].name == b[j].name
    ensures FindByName(a, name) == FindByName(b, name)
  {
    if a != [] && a[0].name != name {
      SameNamesSameIndex(a[1..], b[1..], name);
    }
  }

  /** Writing values never changes a field's /MaxLen. */
  lemma ApplyAllKeepsLimits(form: seq<AcroField>, entries: seq<FormField>, name: string)
    ensures LimitOf(ApplyAll(form, entries), name) == LimitOf(form, name)
  {
    SameLimits(ApplyAll(form, entries), form, name);
  }

  /** What the sidebar shows for an entry once `v` has been written into its
      field, whose /MaxLen is `limit`, and the field read back: a text too long
      for the field is refused and the entry keeps its value. */
  function Settle(e: FormField, v: string, limit: Option<nat>): FormField
  {
    match e.fieldType
    case TextType => if Fits(limit, v) then e.(value := v) else e
    case CheckboxType => e.(value := if v == "true" then "true" else "false")
    case DropdownType => if v != "" then e.(value := v) else e
  }

  /** Writing a value into a field of the entry's own class succeeds unless
      it is a text longer than the field's /MaxLen; the field then reads back as
      the settled entry, and a refused text leaves the entry as it was. */
  lemma SetThenClassify(f: AcroField, annots: seq<bool>, v: string)
    requires Classify(f, annots).Some?
    ensures var e := Classify(f, annots).value;
      && (SetValue(f.kind, e.fieldType, v).Some? <==> (e.fieldType == TextType ==> Fits(MaxLength(f.kind), v)))
      && (SetValue(f.kind, e.fieldType, v).Some? ==>
            Classify(f.(kind := SetValue(f.kind, e.fieldType, v).value), annots) == Some(Settle(e, v, MaxLength(f.kind))))
      && (SetValue(f.kind, e.fieldType, v).None? ==> Settle(e, v, MaxLength(f.kind)) == e)
  {
  }

  /** The entries after edits: those before position `i` settled with their
      new values, against the limits of the fields of `form`. */
  function Partial(form: seq<AcroField>, entries: seq<FormField>, edited: seq<FormField>, i: nat): seq<FormField>
    requires |edited| == |entries|
  {
    seq(|entries|, j requires 0 <= j < |entries| =>
      if j < i then Settle(entries[j], edited[j].value, LimitOf(form, entries[j].name)) else entries[j])
  }

  /** `edited` is the entry list after `updateFieldValue` calls: only values differ. */
  predicate EditOf(entries: seq<FormField>, edited: seq<FormField>)
  {
    |edited| == |entries| && forall j :: 0 <= j < |edited| ==> edited[j] == entries[j].(value := edited[j].value)
  }

  /** Writing one entry, with a new value, into the form it was read from
      fails only for a text longer than its field's /MaxLen, and changes that
      entry alone, to its settled form (unchanged when the write failed). */
  lemma ApplyOneEdit(form: seq<AcroField>, annots: seq<bool>, i: nat, v: string)
    requires UniqueNames(form) && i < |ExtractAll(form, annots)|
    ensures var e := ExtractAll(form, annots)[i];
      && (ApplyField(form, e.(value := v)).Some? <==> (e.fieldType == TextType ==> Fits(LimitOf(form, e.name), v)))
      && ExtractAll(AfterField(form, e.(value := v)), annots)
         == ExtractAll(form, annots)[i := Settle(e, v, LimitOf(form, e.name))]
  {
    var e := ExtractAll(form, annots)[i];
    var k := ExtractOwner(form, annots, i);
    assert FindByName(form, e.name) == Some(k);
    EditOwnedField(form, annots, k, e, v);
  }

  /** Writing into field `k`, which shows as entry `e`, through its own name. */
  lemma EditOwnedField(form: seq<AcroField>, annots: seq<bool>, k: nat, e: FormField, v: string)
    requires k < |form| && Classify(form[k], annots) == Some(e) && FindByName(form, e.name) == Some(k)
    ensures LimitOf(form, e.name) == MaxLength(form[k].kind)
    ensures ApplyField(form, e.(value := v)).Some? <==> (e.fieldType == TextType ==> Fits(MaxLength(form[k].kind), v))
    ensures |ExtractAll(form[..k], annots)| < |ExtractAll(form, annots)|
    ensures ExtractAll(AfterField(form, e.(value := v)), annots)
         == ExtractAll(form, annots)[|ExtractAll(form[..k], annots)| := Settle(e, v, MaxLength(form[k].kind))]
  {
    SetThenClassify(form[k], annots, v);
    ExtractReplace(form, annots, k, form[k]);
    if SetValue(form[k].kind, e.fieldType, v).Some? {
      var kind := SetValue(form[k].kind, e.fieldType, v).value;
      assert ApplyField(form, e.(value := v)) == Some(form[k := form[k].(kind := kind)]);
      ExtractReplace(form, annots, k, form[k].(kind := kind));
    } else {
      assert form[k := form[k]] == form;
    }
  }

  /** The form after one iteration of the write-back loop, a failure caught. */
  function AfterField(form: seq<AcroField>, e: FormField): seq<AcroField>
  {
    match ApplyField(form, e)
    case None => form
    case Some(next) => next
  }

  lemma {:induction false} ApplyPrefix(form: seq<AcroField>, annots: seq<bool>, edited: seq<FormField>, i: nat)
    requires UniqueNames(form)
    requires EditOf(ExtractAll(form, annots), edited) && i <= |edited|
    ensures ExtractAll(ApplyAll(form, edited[..i]), annots) == Partial(form, ExtractAll(form, annots), edited, i)
  {
    if i == 0 {
      assert edited[..0] == [];
      assert Partial(form, ExtractAll(form, annots), edited, 0) == ExtractAll(form, annots);
    } else {
      ApplyPrefix(form, annots, edited, i - 1);
      ApplyPrefixStep(form, annots, edited, i);
    }
  }

  /** The inductive step: once the first `i - 1` edits show, writing edit `i` shows the first `i`. */
  lemma ApplyPrefixStep(form: seq<AcroField>, annots: seq<bool>, edited: seq<FormField>, i: nat)
    requires UniqueNames(form)
    requires EditOf(ExtractAll(form, annots), edited) && 0 < i <= |edited|
    requires ExtractAll(ApplyAll(form, edited[..i - 1]), annots) == Partial(form, ExtractAll(form, annots), edited, i - 1)
    ensures ExtractAll(ApplyAll(form, edited[..i]), annots) == Partial(form, ExtractAll(form, annots), edited, i)
  {
    var entries := ExtractAll(form, annots);
    var cur := ApplyAll(form, edited[..i - 1]);
    ApplyAllSnoc(form, edited, i - 1);
    ApplyAllKeepsNames(form, edited[..i - 1]);
    ApplyAllKeepsLimits(form, edited[..i - 1], edited[i - 1].name);
    assert edited[i - 1].name == entries[i - 1].name;
    EditOnShown(cur, annots, form, entries, edited, i);
  }

  /** The step on whatever form `cur` the first `i - 1` edits left, as long as
      it shows those edits and gives the edited name its original limit. */
  lemma EditOnShown(cur: seq<AcroField>, annots: seq<bool>, form: seq<AcroField>,
                    entries: seq<FormField>, edited: seq<FormField>, i: nat)
    requires UniqueNames(cur)
    requires |edited| == |entries| && 0 < i <= |entries|
    requires ExtractAll(cur, annots) == Partial(form, entries, edited, i - 1)
    requires edited[i - 1] == entries[i - 1].(value := edited[i - 1].value)
    requires LimitOf(cur, edited[i - 1].name) == LimitOf(form, entries[i - 1].name)
    ensures ExtractAll(AfterField(cur, edited[i - 1]), annots) == Partial(form, entries, edited, i)
  {
    assert Partial(form, entries, edited, i - 1)[i - 1] == entries[i - 1];
    ApplyEditStep(cur, annots, i - 1, edited[i - 1]);
    PartialStep(form, entries, edited, i);
  }

  /** Writing values never renames a field, so names stay unique. */
  lemma ApplyAllKeepsNames(form: seq<AcroField>, entries: seq<FormField>)
    requires UniqueNames(form)
    ensures UniqueNames(ApplyAll(form, entries))
  {
    var r := ApplyAll(form, entries);
    forall i, j | 0 <= i < j < |r| ensures r[i].name != r[j].name {
      assert r[i].name == form[i].name && r[j].name == form[j].name;
    }
  }

  /** One step of the write-back loop: writing an edit of entry `i` changes that entry alone. */
  lemma ApplyEditStep(cur: seq<AcroField>, annots: seq<bool>, i: nat, e: FormField)
    requires UniqueNames(cur) && i < |ExtractAll(cur, annots)|
    requires e == ExtractAll(cur, annots)[i].(value := e.value)
    ensures ExtractAll(AfterField(cur, e), annots)
         == ExtractAll(cur, annots)[i := Settle(ExtractAll(cur, annots)[i], e.value, LimitOf(cur, e.name))]
  {
    ApplyOneEdit(cur, annots, i, e.value);
  }

  lemma PartialStep(form: seq<AcroField>, entries: seq<FormField>, edited: seq<FormField>, i: nat)
    requires |edited| == |entries| && 0 < i <= |entries|
    ensures Partial(form, entries, edited, i - 1)[i - 1 := Settle(entries[i - 1], edited[i - 1].value, LimitOf(form, entries[i - 1].name))]
         == Partial(form, entries, edited, i)
  {
  }

  /** The write-back keeps what the user typed: after writing the edited
      entries into the form, reading the form again gives every entry settled
      with its edited value; a text longer than its field's /MaxLen is refused
      and that entry keeps the value it was read with. */
  lemma ApplyEditsThenExtract(form: seq<AcroField>, annots: seq<bool>, edited: seq<FormField>)
    requires UniqueNames(form)
    requires EditOf(ExtractAll(form, annots), edited)
    ensures ExtractAll(ApplyAll(form, edited), annots)
         == seq(|edited|, j requires 0 <= j < |edited| =>
              Settle(ExtractAll(form, annots)[j], edited[j].value, LimitOf(form, edited[j].name)))
  {
    ApplyPrefix(form, annots, edited, |edited|);
    assert edited[..|edited|] == edited;
    PartialComplete(form, ExtractAll(form, annots), edited);
  }

  /** Once every edit is written, each entry is settled, against the limit of the field it names. */
  lemma PartialComplete(form: seq<AcroField>, entries: seq<FormField>, edited: seq<FormField>)
    requires EditOf(entries, edited)
    ensures Partial(form, entries, edited, |edited|)
         == seq(|edited|, j requires 0 <= j < |edited| => Settle(entries[j], edited[j].value, LimitOf(form, edited[j].name)))
  {
    assert forall j :: 0 <= j < |edited| ==> edited[j].name == entries[j].name;
  }

  /** Downloading with no edit writes back what was read: extraction is a fixpoint. */
  lemma ApplyExtractedIsFixpoint(form: seq<AcroField>, annots: seq<bool>)
    requires UniqueNames(form)
    ensures ExtractAll(ApplyAll(form, ExtractAll(form, annots)), annots) == ExtractAll(form, annots)
  {
    var entries := ExtractAll(form, annots);
    ApplyEditsThenExtract(form, annots, entries);
    ExtractedCheckboxes(form, annots);
    assert forall j :: 0 <= j < |entries| ==> Settle(entries[j], entries[j].value, LimitOf(form, entries[j].name)) == entries[j];
  }
}
