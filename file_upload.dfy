/** The upload widget: files above the size limit are refused with a message,
    the rest are appended to (multiple mode) or replace (single mode) the
    selection, and the parent is told the new selection. */
module FileUpload {
  import opened Common

  datatype File = File(name: string, size: nat)

  const DEFAULT_MAX_SIZE_MB: nat := 50

  const MIB: nat := 1024 * 1024

  predicate Fits(f: File, maxSizeMb: nat)
  {
    f.size <= maxSizeMb * MIB
  }

  /** The files that pass the size check, in input order. */
  function ValidFiles(files: seq<File>, maxSizeMb: nat): (valid: seq<File>)
    ensures |valid| <= |files|
    ensures forall i :: 0 <= i < |valid| ==> Fits(valid[i], maxSizeMb)
  {
    if files == [] then []
    else
      var rest := ValidFiles(files[..|files| - 1], maxSizeMb);
      var last := files[|files| - 1];
      if Fits(last, maxSizeMb) then rest + [last] else rest
  }

  /** The last file that is too large: its message is the one left shown,
      since each oversize file overwrites the previous message. */
  function LastTooLarge(files: seq<File>, maxSizeMb: nat): (r: Option<File>)
    ensures r.Some? ==> r.value in files && !Fits(r.value, maxSizeMb)
  {
    if files == [] then None
    else if !Fits(files[|files| - 1], maxSizeMb) then Some(files[|files| - 1])
    else LastTooLarge(files[..|files| - 1], maxSizeMb)
  }

  function TooLargeMessage(f: File, maxSizeMb: nat): string
  {
    "Le fichier \"" + f.name + "\" dépasse la taille maximale de " + NatToString(maxSizeMb) + " Mo"
  }

  /** The message shown after a validation, if any. */
  function ErrorAfter(files: seq<File>, maxSizeMb: nat): Option<string>
  {
    match LastTooLarge(files, maxSizeMb)
    case None => None
    case Some(f) => Some(TooLargeMessage(f, maxSizeMb))
  }

  /** A file is kept exactly when it was given and fits. */
  lemma {:induction false} ValidFilesMembership(files: seq<File>, maxSizeMb: nat, f: File)
    ensures f in ValidFiles(files, maxSizeMb) <==> f in files && Fits(f, maxSizeMb)
  {
    if files != [] {
      var init := files[..|files| - 1];
      ValidFilesMembership(init, maxSizeMb, f);
      assert files == init + [files[|files| - 1]];
    }
  }

  /** Filtering a concatenation filters each part. */
  lemma {:induction false} ValidFilesAppend(a: seq<File>, b: seq<File>, maxSizeMb: nat)
    ensures ValidFiles(a + b, maxSizeMb) == ValidFiles(a, maxSizeMb) + ValidFiles(b, maxSizeMb)
  {
    if b != [] {
      var init := b[..|b| - 1];
      assert (a + b)[..|a + b| - 1] == a + init;
      ValidFilesAppend(a, init, maxSizeMb);
    } else {
      assert a + b == a;
    }
  }

  /** When every file fits, nothing is dropped; so validating a validated list again keeps all of it. */
  lemma {:induction false} ValidFilesAllFit(files: seq<File>, maxSizeMb: nat)
    requires forall i :: 0 <= i < |files| ==> Fits(files[i], maxSizeMb)
    ensures ValidFiles(files, maxSizeMb) == files
  {
    if files != [] {
      var init := files[..|files| - 1];
      ValidFilesAllFit(init, maxSizeMb);
      assert files == init + [files[|files| - 1]];
    }
  }

  /** The error is shown exactly when some given file is too large. */
  lemma {:induction false} ErrorIffTooLarge(files: seq<File>, maxSizeMb: nat)
    ensures ErrorAfter(files, maxSizeMb).Some? <==> exists i :: 0 <= i < |files| && !Fits(files[i], maxSizeMb)
  {
    if files != [] {
      var init := files[..|files| - 1];
      ErrorIffTooLarge(init, maxSizeMb);
      if exists i :: 0 <= i < |init| && !Fits(init[i], maxSizeMb) {
        var i :| 0 <= i < |init| && !Fits(init[i], maxSizeMb);
        assert files[i] == init[i];
      }
      if exists i :: 0 <= i < |files| && !Fits(files[i], maxSizeMb) {
        var i :| 0 <= i < |files| && !Fits(files[i], maxSizeMb);
        if i < |init| {
          assert init[i] == files[i];
        }
      }
    }
  }

  /** `selectedFiles.filter((_, i) => i !== index)`: the list without position
      `index`; an index outside the list removes nothing. */
  function RemoveAt(files: seq<File>, index: nat): (r: seq<File>)
    ensures index < |files| ==> |r| == |files| - 1
    ensures index < |files| ==> forall j :: 0 <= j < index ==> r[j] == files[j]
    ensures index < |files| ==> forall j :: index <= j < |r| ==> r[j] == files[j + 1]
    ensures index >= |files| ==> r == files
  {
    if index < |files| then files[..index] + files[index + 1..] else files
  }

  /** Removing the file that was just appended gives back the earlier selection. */
  lemma RemoveLastUndoesAppend(prev: seq<File>, f: File)
    ensures RemoveAt(prev + [f], |prev|) == prev
  {
    assert (prev + [f])[..|prev|] == prev;
  }

  class Uploader {
    var multiple: bool
    var maxSizeMb: nat
    var error: Option<string>
    var selected: seq<File>
    /** Every list passed to `onFilesSelected`, in call order. */
    var reported: seq<seq<File>>

    /** Every selected file is within the size limit. */
    ghost predicate Valid()
      reads this
    {
      forall i :: 0 <= i < |selected| ==> Fits(selected[i], maxSizeMb)
    }

    constructor (multiple: bool, maxSizeMb: Option<nat>)
      ensures this.multiple == multiple
      ensures this.maxSizeMb == (if maxSizeMb.Some? then maxSizeMb.value else DEFAULT_MAX_SIZE_MB)
      ensures error.None? && selected == [] && reported == []
      ensures Valid()
    {
      this.multiple := multiple;
      this.maxSizeMb := if maxSizeMb.Some? then maxSizeMb.value else DEFAULT_MAX_SIZE_MB;
      error := None;
      selected := [];
      reported := [];
    }

    /** Clears the message, then keeps the files that fit; each file that does
        not fit replaces the message with its own. */
    method ValidateFiles(files: seq<File>) returns (valid: seq<File>)
      modifies this`error
      ensures valid == ValidFiles(files, maxSizeMb)
      ensures error == ErrorAfter(files, maxSizeMb)
    {
      error := None;
      valid := [];
      var i := 0;
      while i < |files|
        invariant 0 <= i <= |files|
        invariant valid == ValidFiles(files[..i], maxSizeMb)
        invariant error == ErrorAfter(files[..i], maxSizeMb)
      {
        assert files[..i + 1][..i] == files[..i];
        var file := files[i];
        if file.size > maxSizeMb * MIB {
          error := Some(TooLargeMessage(file, maxSizeMb));
        } else {
          valid := valid + [file];
        }
        i := i + 1;
      }
      assert files[..|files|] == files;
    }

    /** Nothing changes but the message unless some file is valid; then the
        valid files are appended (multiple) or become the selection (single),
        and the parent receives the new selection once. */
    method HandleFiles(files: seq<File>)
      requires Valid()
      modifies this`error, this`selected, this`reported
      ensures Valid()
      ensures error == ErrorAfter(files, maxSizeMb)
      ensures var valid := ValidFiles(files, maxSizeMb);
        if valid == [] then selected == old(selected) && reported == old(reported)
        else
          && selected == (if multiple then old(selected) + valid else valid)
          && reported == old(reported) + [selected]
    {
      var valid := ValidateFiles(files);
      if |valid| > 0 {
        selected := if multiple then selected + valid else valid;
        reported := reported + [selected];
      }
    }

    /** Drops one position of the selection and reports the new list. */
    method RemoveFile(index: nat)
      requires Valid()
      modifies this`selected, this`reported
      ensures Valid()
      ensures selected == RemoveAt(old(selected), index)
      ensures reported == old(reported) + [selected]
    {
      selected := RemoveAt(selected, index);
      reported := reported + [selected];
    }
  }
}
