/**
 Scanning a browser upload (`scan_obsidian_upload` of `obsidian_import.py`): which files become
 notes, and the limits on their number and size.  It is what gives the planner distinct paths.
 */
module UploadScan {
  import opened Prelude
  import ImportPlanner

  const MAX_VAULT_FILES: nat := 10_000
  const MAX_NOTE_BYTES: nat := 2_000_000
  const MAX_VAULT_BYTES: nat := 750_000_000

  /** One uploaded file.  `path` is the normalised path, absent when it is not a valid source path;
      `fold` its case-folded form; `size` is absent when the content is not bytes; `hash` when the
      note does not parse. */
  datatype File = File(path: Option<nat>, fold: nat, hidden: bool, markdown: bool, sensitive: bool,
                       size: Option<nat>, hash: Option<nat>)

  /** The file takes its place among the paths seen: it has a valid path outside hidden folders. */
  predicate Placed(f: File) {
    f.path.Some? && !f.hidden
  }

  predicate Repeats(files: seq<File>, i: nat)
    requires i < |files|
  {
    exists j :: 0 <= j < i && Placed(files[j]) && files[j].fold == files[i].fold
  }

  /** The file reaches the total-size account. */
  predicate Counted(files: seq<File>, i: nat)
    requires i < |files|
  {
    var f := files[i];
    && Placed(f) && !Repeats(files, i) && f.markdown && !f.sensitive
    && f.size.Some? && f.size.value <= MAX_NOTE_BYTES
  }

  function CountedBytes(files: seq<File>, count: nat): nat
    requires count <= |files|
  {
    if count == 0 then 0
    else CountedBytes(files, count - 1) + if Counted(files, count - 1) then files[count - 1].size.value else 0
  }

  function Accepted(files: seq<File>, count: nat): seq<ImportPlanner.Note>
    requires count <= |files|
  {
    if count == 0 then []
    else
      var f := files[count - 1];
      Accepted(files, count - 1)
      + if Counted(files, count - 1) && f.hash.Some?
        then [ImportPlanner.Note(f.path.value, f.fold, f.hash.value)] else []
  }

  /** Where the scan ends: at a limit, or after the last file. */
  predicate EndsAt(files: seq<File>, count: nat) {
    && count <= |files|
    && count <= MAX_VAULT_FILES
    && CountedBytes(files, count) <= MAX_VAULT_BYTES
    && (count < |files| ==>
          count == MAX_VAULT_FILES || CountedBytes(files, count + 1) > MAX_VAULT_BYTES)
  }

  datatype Scan = Scan(notes: seq<ImportPlanner.Note>, rejected: nat, skipped: nat, complete: bool)

  /** The scan of the files before `stop`; a limit that ends it is reported as one more rejection. */
  predicate IsScanUpTo(files: seq<File>, stop: nat, scan: Scan) {
    && EndsAt(files, stop)
    && scan.notes == Accepted(files, stop)
    && (scan.complete <==> stop == |files|)
    && |scan.notes| + scan.rejected + scan.skipped == stop + if scan.complete then 0 else 1
  }

  method ScanUpload(files: seq<File>) returns (scan: Scan)
    ensures exists stop :: IsScanUpTo(files, stop, scan)
  {
    scan := Scan([], 0, 0, true);
    var total, seen: set<nat>, i := 0, {}, 0;
    while i < |files|
      invariant 0 <= i <= |files| && i <= MAX_VAULT_FILES
      invariant scan.complete && scan.notes == Accepted(files, i)
      invariant total == CountedBytes(files, i) <= MAX_VAULT_BYTES
      invariant seen == set j | 0 <= j < i && Placed(files[j]) :: files[j].fold
      invariant |scan.notes| + scan.rejected + scan.skipped == i
    {
      if i >= MAX_VAULT_FILES {
        scan := scan.(rejected := scan.rejected + 1, complete := false);
        assert IsScanUpTo(files, i, scan);
        return;
      }
      var f := files[i];
      assert Repeats(files, i) <==> f.fold in seen;
      if f.path.None? {
        scan := scan.(rejected := scan.rejected + 1);
      } else if f.hidden {
        scan := scan.(skipped := scan.skipped + 1);
      } else if f.fold in seen {
        scan := scan.(rejected := scan.rejected + 1);
      } else {
        seen := seen + {f.fold};
        if !f.markdown {
          scan := scan.(skipped := scan.skipped + 1);
        } else if f.sensitive || f.size.None? || f.size.value > MAX_NOTE_BYTES {
          scan := scan.(rejected := scan.rejected + 1);
        } else {
          total := total + f.size.value;
          if total > MAX_VAULT_BYTES {
            scan := scan.(rejected := scan.rejected + 1, complete := false);
            assert IsScanUpTo(files, i, scan);
            return;
          }
          if f.hash.Some? {
            scan := scan.(notes := scan.notes + [ImportPlanner.Note(f.path.value, f.fold, f.hash.value)]);
          } else {
            scan := scan.(rejected := scan.rejected + 1);
          }
        }
      }
      i := i + 1;
    }
    assert IsScanUpTo(files, i, scan);
  }

  lemma {:induction false} AcceptedComeFromCounted(files: seq<File>, count: nat, k: nat) returns (i: nat)
    requires count <= |files| && k < |Accepted(files, count)|
    ensures i < count && Counted(files, i)
    ensures files[i].path.value == Accepted(files, count)[k].path && files[i].fold == Accepted(files, count)[k].fold
    ensures |Accepted(files, i)| == k
  {
    if k < |Accepted(files, count - 1)| {
      i := AcceptedComeFromCounted(files, count - 1, k);
    } else {
      i := count - 1;
    }
  }

  /** Two notes of one upload never have paths that differ only in case. */
  lemma AcceptedPathsAreDistinct(files: seq<File>, count: nat, j: nat, k: nat)
    requires count <= |files| && j < k < |Accepted(files, count)|
    ensures Accepted(files, count)[j].fold != Accepted(files, count)[k].fold
  {
    var a := AcceptedComeFromCounted(files, count, j);
    var b := AcceptedComeFromCounted(files, count, k);
    if b <= a {
      AcceptedGrows(files, b, a);
    }
    assert Placed(files[a]) && !Repeats(files, b);
  }

  lemma {:induction false} AcceptedGrows(files: seq<File>, low: nat, high: nat)
    requires low <= high <= |files|
    ensures |Accepted(files, low)| <= |Accepted(files, high)|
  {
    if low < high {
      AcceptedGrows(files, low, high - 1);
    }
  }

  /** With paths that determine their case-folded form, the scan gives the planner what it needs. */
  lemma ScanIsWellFormed(files: seq<File>, count: nat, p: ImportPlanner.Problem)
    requires count <= |files| && p.notes == Accepted(files, count)
    requires forall i, j ::
               (0 <= i < |files| && 0 <= j < |files| && files[i].path == files[j].path
                ==> files[i].fold == files[j].fold)
    requires forall i, j ::
               (0 <= i < j < |p.items| ==> p.items[i].id != p.items[j].id && p.items[i].key != p.items[j].key)
    ensures ImportPlanner.WellFormed(p)
  {
    forall j, k | 0 <= j < k < |p.notes| ensures p.notes[j].path != p.notes[k].path {
      AcceptedPathsAreDistinct(files, count, j, k);
      var a := AcceptedComeFromCounted(files, count, j);
      var b := AcceptedComeFromCounted(files, count, k);
    }
  }

  lemma {:induction false} BytesGrow(files: seq<File>, low: nat, high: nat)
    requires low <= high <= |files|
    ensures CountedBytes(files, low) <= CountedBytes(files, high)
  {
    if low < high {
      BytesGrow(files, low, high - 1);
    }
  }

  /** The place where a scan ends is determined by the files. */
  lemma TheEndIsUnique(files: seq<File>, a: nat, b: nat)
    requires EndsAt(files, a) && EndsAt(files, b)
    ensures a == b
  {
    if a < b {
      BytesGrow(files, a + 1, b);
    } else if b < a {
      BytesGrow(files, b + 1, a);
    }
  }
}
