/**
  The dashboard's event handlers (app/dashboard/page.tsx): uploading a batch
  of files into the registry, selecting a file (which picks chart axes) and
  deleting a file. The workbook reader, the clock and the toasts are outside
  the model: each picked file arrives with the reader's outcome and the clock
  readings of its iteration.
*/
module Dashboard {
  import opened Wrappers
  import opened JsValues
  import opened Profiler
  import opened Extraction
  import opened Axes
  import opened FileSlice

  /** One file of the batch, with what the environment supplies for it. */
  datatype PickedFile = PickedFile(
    name: string,
    size: nat,
    read: Result<Grid, string>,  // the workbook reader's grid, or its error message
    now: nat,                    // Date.now() when the file's turn comes
    isoDate: string)             // new Date().toISOString() at the same moment

  predicate EndsWith(s: string, suffix: string) {
    |suffix| <= |s| && s[|s| - |suffix|..] == suffix
  }

  /** `name.match(/\.(xlsx|xls)$/)`: the name ends in ".xlsx" or ".xls", case-sensitively. */
  function HasExcelExtension(name: string): (b: bool)
    ensures b <==> exists k :: 0 <= k < |name| && name[k] == '.' && (name[k + 1..] == "xlsx" || name[k + 1..] == "xls")
  {
    ExcelExtensionAfterDot(name);
    EndsWith(name, ".xlsx") || EndsWith(name, ".xls")
  }

  /** The suffix test read as the regular expression does: a dot, then one of the two extensions, then the end. */
  lemma ExcelExtensionAfterDot(name: string)
    ensures EndsWith(name, ".xlsx") || EndsWith(name, ".xls") <==>
      exists k :: 0 <= k < |name| && name[k] == '.' && (name[k + 1..] == "xlsx" || name[k + 1..] == "xls")
  {
    if EndsWith(name, ".xlsx") {
      var k := |name| - 5;
      assert name[k] == '.' && name[k + 1..] == "xlsx";
    } else if EndsWith(name, ".xls") {
      var k := |name| - 4;
      assert name[k] == '.' && name[k + 1..] == "xls";
    }
    forall k | 0 <= k < |name| && name[k] == '.' && (name[k + 1..] == "xlsx" || name[k + 1..] == "xls")
      ensures EndsWith(name, ".xlsx") || EndsWith(name, ".xls")
    {
      assert name[k..] == [name[k]] + name[k + 1..];
    }
  }

  lemma ExtensionExamples()
    ensures HasExcelExtension("sales.xlsx") && HasExcelExtension("old.xls")
    ensures !HasExcelExtension("sales.XLSX") && !HasExcelExtension("sales.csv")
    ensures !HasExcelExtension("sales.xlsx.bak") && !HasExcelExtension("xlsx")
  {
    assert "sales.xlsx"[5..] == ".xlsx";
    assert "old.xls"[3..] == ".xls";
    assert "sales.XLSX"[5..] != ".xlsx" && "sales.XLSX"[6..] != ".xls";
  }

  /** `Date.now().toString() + i`. */
  function EntryId(p: PickedFile, i: nat): (id: string)
    ensures |id| >= 2
    ensures forall k :: 0 <= k < |id| ==> '0' <= id[k] <= '9'
  {
    DecimalString(p.now) + DecimalString(i)
  }

  /** The entry added while the file is being processed. */
  function NewEntry(p: PickedFile, i: nat): (f: UploadedFile)
    ensures f.id == EntryId(p, i) && f.name == p.name && f.status == Processing
    ensures f.size == p.size && f.uploadDate == p.isoDate
    ensures f.data == None && f.columns == None && f.debugInfo == None
  {
    UploadedFile(EntryId(p, i), p.name, p.size, p.isoDate, Processing, None, None, None)
  }

  /** What `processExcelFile` settles to for one picked file. */
  function Outcome(rt: JsRuntime, read: Result<Grid, string>): (r: Result<Processed, string>)
    ensures read.Failure? ==> r.Failure? && r.error == read.error
    ensures read.Success? ==> (r.Success? <==> |read.value| > 0)
    ensures read.Success? && r.Failure? ==> r.error == EmptySheetMessage
  {
    match read
    case Failure(message) => Failure(message)
    case Success(grid) => Extracted(rt, grid)
  }

  /** The entry that replaces the processing one: completed with the data, or error without. */
  function Finalize(entry: UploadedFile, outcome: Result<Processed, string>): (f: UploadedFile)
    ensures f.id == entry.id && f.name == entry.name && f.size == entry.size && f.uploadDate == entry.uploadDate
    ensures f.status == Completed <==> outcome.Success?
    ensures f.status == Error <==> outcome.Failure?
    ensures outcome.Success? ==>
      f.data == Some(outcome.value.data) && f.columns == Some(outcome.value.columns)
      && f.debugInfo == Some(outcome.value.debugInfo)
    ensures outcome.Failure? ==> f.data == entry.data && f.columns == entry.columns && f.debugInfo == entry.debugInfo
  {
    match outcome
    case Success(p) => entry.(status := Completed, data := Some(p.data), columns := Some(p.columns), debugInfo := Some(p.debugInfo))
    case Failure(_) => entry.(status := Error)
  }

  /**
    The registry after the i-th file's turn: an invalid name leaves it alone;
    otherwise the processing entry is appended, then every entry with its id
    is removed and the finished entry appended.
  */
  function UploadStep(rt: JsRuntime, files: seq<UploadedFile>, p: PickedFile, i: nat): (r: seq<UploadedFile>)
    ensures !HasExcelExtension(p.name) ==> r == files
    ensures HasExcelExtension(p.name) ==>
      && 1 <= |r| <= |files| + 1
      && r[|r| - 1] == Finalize(NewEntry(p, i), Outcome(rt, p.read))
      && r[..|r| - 1] == WithoutId(files, EntryId(p, i))
  {
    if !HasExcelExtension(p.name) then files
    else
      var entry := NewEntry(p, i);
      WithoutIdConcat(files, [entry], entry.id);
      assert WithoutId([entry], entry.id) == [];
      var kept := WithoutId(files + [entry], entry.id);
      assert (kept + [Finalize(entry, Outcome(rt, p.read))])[..|kept|] == kept;
      kept + [Finalize(entry, Outcome(rt, p.read))]
  }

  /** The registry after the whole batch, file by file in order. */
  function UploadAll(rt: JsRuntime, files: seq<UploadedFile>, picked: seq<PickedFile>): (r: seq<UploadedFile>)
    ensures |r| <= |files| + |picked|
    ensures (forall k :: 0 <= k < |picked| ==> !HasExcelExtension(picked[k].name)) ==> r == files
  {
    if picked == [] then files
    else
      var n := |picked| - 1;
      assert forall k :: 0 <= k < n ==> picked[..n][k] == picked[k];
      UploadStep(rt, UploadAll(rt, files, picked[..n]), picked[n], n)
  }

  /** The batch semantics one file further: the next file's step on top of the earlier ones. */
  lemma UploadAllExtends(rt: JsRuntime, files: seq<UploadedFile>, picked: seq<PickedFile>, i: nat)
    requires i < |picked|
    ensures UploadAll(rt, files, picked[..i + 1]) == UploadStep(rt, UploadAll(rt, files, picked[..i]), picked[i], i)
  {
    assert picked[..i + 1][..i] == picked[..i];
  }

  /** The finished entries of the accepted files of a batch, in batch order. */
  function FinishedEntries(rt: JsRuntime, picked: seq<PickedFile>): (r: seq<UploadedFile>)
    ensures |r| <= |picked|
    ensures forall k :: 0 <= k < |r| ==> r[k].status != Processing && HasExcelExtension(r[k].name)
  {
    if picked == [] then []
    else
      var n := |picked| - 1;
      var p := picked[n];
      FinishedEntries(rt, picked[..n])
        + (if HasExcelExtension(p.name) then [Finalize(NewEntry(p, n), Outcome(rt, p.read))] else [])
  }

  /** Each finished entry carries the id generated for an accepted file of the batch. */
  lemma {:induction false} FinishedEntryIds(rt: JsRuntime, picked: seq<PickedFile>, k: nat)
    requires k < |FinishedEntries(rt, picked)|
    ensures exists i ::
      && 0 <= i < |picked|
      && HasExcelExtension(picked[i].name)
      && FinishedEntries(rt, picked)[k].id == EntryId(picked[i], i)
  {
    var n := |picked| - 1;
    var prefix := picked[..n];
    if k < |FinishedEntries(rt, prefix)| {
      FinishedEntryIds(rt, prefix, k);
      var i :|
        && 0 <= i < |prefix|
        && HasExcelExtension(prefix[i].name)
        && FinishedEntries(rt, prefix)[k].id == EntryId(prefix[i], i);
      assert prefix[i] == picked[i];
    } else {
      assert FinishedEntries(rt, picked)[k].id == EntryId(picked[n], n);
    }
  }

  /** The ids the batch generates are new to the registry and to each other. */
  predicate FreshIds(files: seq<UploadedFile>, picked: seq<PickedFile>) {
    && (forall i :: 0 <= i < |picked| && HasExcelExtension(picked[i].name) ==> !HasId(files, EntryId(picked[i], i)))
    && (forall i, j :: 0 <= i < j < |picked| && HasExcelExtension(picked[i].name) && HasExcelExtension(picked[j].name)
          ==> EntryId(picked[i], i) != EntryId(picked[j], j))
  }

  /**
    With fresh ids, a batch appends exactly one finished entry (completed or
    error) per file with an Excel name, in batch order, and keeps every
    earlier entry; a failing file does not stop the files after it.
  */
  lemma {:induction false} UploadAppendsFinishedEntries(rt: JsRuntime, files: seq<UploadedFile>, picked: seq<PickedFile>)
    requires FreshIds(files, picked)
    ensures UploadAll(rt, files, picked) == files + FinishedEntries(rt, picked)
  {
    if picked != [] {
      var n := |picked| - 1;
      FreshIdsPrefix(files, picked);
      UploadAppendsFinishedEntries(rt, files, picked[..n]);
      if HasExcelExtension(picked[n].name) {
        NewIdIsFresh(rt, files, picked);
      }
      LastStepAppends(rt, files, picked);
    }
  }

  /**
    The induction step: when the earlier files have appended their finished
    entries and the last file's id is fresh, the last file appends its own.
  */
  lemma LastStepAppends(rt: JsRuntime, files: seq<UploadedFile>, picked: seq<PickedFile>)
    requires picked != []
    requires UploadAll(rt, files, picked[..|picked| - 1]) == files + FinishedEntries(rt, picked[..|picked| - 1])
    requires HasExcelExtension(picked[|picked| - 1].name) ==>
      !HasId(files + FinishedEntries(rt, picked[..|picked| - 1]), EntryId(picked[|picked| - 1], |picked| - 1))
    ensures UploadAll(rt, files, picked) == files + FinishedEntries(rt, picked)
  {
    var n := |picked| - 1;
    var p := picked[n];
    var prefix := picked[..n];
    var before := files + FinishedEntries(rt, prefix);
    assert UploadAll(rt, files, picked) == UploadStep(rt, before, p, n);
    if HasExcelExtension(p.name) {
      var finished := Finalize(NewEntry(p, n), Outcome(rt, p.read));
      FreshStepAppends(rt, before, p, n);
      assert FinishedEntries(rt, picked) == FinishedEntries(rt, prefix) + [finished];
      assert files + FinishedEntries(rt, picked) == before + [finished];
    } else {
      assert FinishedEntries(rt, picked) == FinishedEntries(rt, prefix);
    }
  }

  /** `Date.now()` never goes back while the batch loop runs. */
  predicate ClockNeverGoesBack(picked: seq<PickedFile>) {
    forall i, j :: 0 <= i < j < |picked| ==> picked[i].now <= picked[j].now
  }

  /**
    Two files of one batch never get the same id when the clock does not go
    back: the later one has at least as many digits in both the time and the
    index, so equal ids would need equal indices.
  */
  lemma EntryIdsDistinct(p: PickedFile, i: nat, q: PickedFile, j: nat)
    requires p.now <= q.now && i < j
    ensures EntryId(p, i) != EntryId(q, j)
  {
    var a, b, c, d := DecimalString(p.now), DecimalString(i), DecimalString(q.now), DecimalString(j);
    DecimalStringDistinct(i, j);
    DecimalStringLengthMonotone(p.now, q.now);
    DecimalStringLengthMonotone(i, j);
    if |a| == |c| && |b| == |d| {
      assert (a + b)[|a|..] == b;
      assert (c + d)[|c|..] == d;
    }
  }

  /** Hence the ids a batch generates are pairwise distinct. */
  lemma BatchIdsDistinct(picked: seq<PickedFile>)
    requires ClockNeverGoesBack(picked)
    ensures forall i, j :: 0 <= i < j < |picked| ==> EntryId(picked[i], i) != EntryId(picked[j], j)
  {
    forall i, j | 0 <= i < j < |picked|
      ensures EntryId(picked[i], i) != EntryId(picked[j], j)
    {
      EntryIdsDistinct(picked[i], i, picked[j], j);
    }
  }

  /**
    With a clock that does not go back, the only freshness left to assume is
    that no generated id is already in the registry: then a batch appends one
    finished entry per Excel file, in order.
  */
  lemma UploadAppendsWithSteadyClock(rt: JsRuntime, files: seq<UploadedFile>, picked: seq<PickedFile>)
    requires ClockNeverGoesBack(picked)
    requires forall i :: 0 <= i < |picked| && HasExcelExtension(picked[i].name) ==> !HasId(files, EntryId(picked[i], i))
    ensures UploadAll(rt, files, picked) == files + FinishedEntries(rt, picked)
  {
    BatchIdsDistinct(picked);
    UploadAppendsFinishedEntries(rt, files, picked);
  }

  /** A file whose id is fresh leaves the registry as it was, plus its finished entry at the end. */
  lemma FreshStepAppends(rt: JsRuntime, files: seq<UploadedFile>, p: PickedFile, i: nat)
    requires HasExcelExtension(p.name) && !HasId(files, EntryId(p, i))
    ensures UploadStep(rt, files, p, i) == files + [Finalize(NewEntry(p, i), Outcome(rt, p.read))]
  {
    var entry := NewEntry(p, i);
    WithoutAbsentId(files, entry.id);
    WithoutIdConcat(files, [entry], entry.id);
    assert WithoutId([entry], entry.id) == [];
  }

  lemma FreshIdsPrefix(files: seq<UploadedFile>, picked: seq<PickedFile>)
    requires FreshIds(files, picked) && picked != []
    ensures FreshIds(files, picked[..|picked| - 1])
  {
    var prefix := picked[..|picked| - 1];
    assert forall i :: 0 <= i < |prefix| ==> prefix[i] == picked[i];
  }

  /** The id of the last file of a batch is not in the registry the earlier files leave behind. */
  lemma NewIdIsFresh(rt: JsRuntime, files: seq<UploadedFile>, picked: seq<PickedFile>)
    requires FreshIds(files, picked) && picked != []
    requires HasExcelExtension(picked[|picked| - 1].name)
    ensures !HasId(files + FinishedEntries(rt, picked[..|picked| - 1]), EntryId(picked[|picked| - 1], |picked| - 1))
  {
    var n := |picked| - 1;
    var prefix := picked[..n];
    var finished := FinishedEntries(rt, prefix);
    var id := EntryId(picked[n], n);
    assert !HasId(files, id);
    forall k | 0 <= k < |finished|
      ensures finished[k].id != id
    {
      FinishedIdDiffers(rt, files, picked, k);
    }
    NoIdInConcat(files, finished, id);
  }

  /** A finished entry of the earlier files of a fresh batch does not carry the last file's id. */
  lemma FinishedIdDiffers(rt: JsRuntime, files: seq<UploadedFile>, picked: seq<PickedFile>, k: nat)
    requires FreshIds(files, picked) && picked != []
    requires HasExcelExtension(picked[|picked| - 1].name)
    requires k < |FinishedEntries(rt, picked[..|picked| - 1])|
    ensures FinishedEntries(rt, picked[..|picked| - 1])[k].id != EntryId(picked[|picked| - 1], |picked| - 1)
  {
    var n := |picked| - 1;
    var prefix := picked[..n];
    FinishedEntryIds(rt, prefix, k);
    var i :|
      && 0 <= i < |prefix|
      && HasExcelExtension(prefix[i].name)
      && FinishedEntries(rt, prefix)[k].id == EntryId(prefix[i], i);
    assert prefix[i] == picked[i];
  }

  /** Whatever the ids, every entry after a batch was there before or comes from a file with an Excel name. */
  lemma {:induction false} UploadAddsOnlyExcelFiles(rt: JsRuntime, files: seq<UploadedFile>, picked: seq<PickedFile>)
    ensures forall f :: f in UploadAll(rt, files, picked) ==>
      f in files || (HasExcelExtension(f.name) && f.status != Processing)
  {
    if picked != [] {
      var n := |picked| - 1;
      var p := picked[n];
      var before := UploadAll(rt, files, picked[..n]);
      UploadAddsOnlyExcelFiles(rt, files, picked[..n]);
      if HasExcelExtension(p.name) {
        var entry := NewEntry(p, n);
        WithoutIdMembers(before + [entry], entry.id);
      }
    }
  }

  /** One valid and one invalid file into an empty registry: exactly one entry, already finished. */
  lemma MixedBatchExample(rt: JsRuntime, good: PickedFile, bad: PickedFile)
    requires good.name == "q3.xlsx" && bad.name == "notes.txt"
    ensures |UploadAll(rt, [], [good, bad])| == 1
    ensures UploadAll(rt, [], [good, bad])[0].name == "q3.xlsx"
    ensures UploadAll(rt, [], [good, bad])[0].status != Processing
  {
    assert HasExcelExtension(good.name) by { assert good.name[2..] == ".xlsx"; }
    assert !HasExcelExtension(bad.name);
    assert [good, bad][..1] == [good];
    assert [good][..0] == [];
    var entry := NewEntry(good, 0);
    assert WithoutId([entry], entry.id) == [];
    assert UploadAll(rt, [], [good]) == [Finalize(entry, Outcome(rt, good.read))];
    assert UploadAll(rt, [], [good, bad]) == UploadAll(rt, [], [good]);
  }

  /** The analyses a selected file carries, if any (`file.debugInfo?.columnAnalysis`). */
  function AnalysisOf(file: UploadedFile): seq<ColumnAnalysis> {
    if file.debugInfo.Some? then file.debugInfo.value.columnAnalysis else []
  }

  class DashboardPage {
    const store: FileStore
    var xAxis: string
    var yAxis: string
    var isUploading: bool

    constructor (store: FileStore)
      ensures this.store == store && xAxis == "" && yAxis == "" && !isUploading
    {
      this.store := store;
      xAxis := "";
      yAxis := "";
      isUploading := false;
    }

    /** `handleFileUpload`: the batch loop over the picked files. */
    method HandleFileUpload(rt: JsRuntime, picked: seq<PickedFile>)
      modifies this, store
      ensures store.files == UploadAll(rt, old(store.files), picked)
      ensures store.selectedFile == old(store.selectedFile) && store.isLoading == old(store.isLoading)
      ensures xAxis == old(xAxis) && yAxis == old(yAxis) && !isUploading
    {
      isUploading := true;
      for i := 0 to |picked|
        invariant store.files == UploadAll(rt, old(store.files), picked[..i])
        invariant store.selectedFile == old(store.selectedFile) && store.isLoading == old(store.isLoading)
        invariant xAxis == old(xAxis) && yAxis == old(yAxis)
      {
        var p := picked[i];
        ghost var before := store.files;
        if HasExcelExtension(p.name) {
          var entry := NewEntry(p, i);
          store.AddFile(entry);
          var outcome := ProcessExcelFile(rt, p.read);
          store.RemoveFile(entry.id);
          store.AddFile(Finalize(entry, outcome));
        }
        assert store.files == UploadStep(rt, before, p, i);
        UploadAllExtends(rt, old(store.files), picked, i);
      }
      assert picked[..|picked|] == picked;
      isUploading := false;
    }

    /** `handleFileSelect`: select the file and, when it has columns, pick the chart axes. */
    method HandleFileSelect(file: UploadedFile)
      modifies this, store
      ensures store.selectedFile == Some(file)
      ensures store.files == old(store.files) && store.isLoading == old(store.isLoading)
      ensures isUploading == old(isUploading)
      ensures file.columns.Some? && |file.columns.value| > 0 ==>
        xAxis == file.columns.value[0] && IsRecommendedMeasure(file.columns.value, AnalysisOf(file), yAxis)
      ensures file.columns.None? || |file.columns.value| == 0 ==> xAxis == old(xAxis) && yAxis == old(yAxis)
    {
      store.SetSelectedFile(Some(file));
      if file.columns.Some? && |file.columns.value| > 0 {
        var x, y := ChooseAxes(file.columns.value, AnalysisOf(file));
        xAxis := x;
        yAxis := y;
      }
    }

    /** `handleDeleteFile`: remove the entry, and clear the selection only if it was that file. */
    method HandleDeleteFile(id: string)
      modifies store
      ensures store.files == WithoutId(old(store.files), id)
      ensures old(store.selectedFile).Some? && old(store.selectedFile).value.id == id ==> store.selectedFile == None
      ensures !(old(store.selectedFile).Some? && old(store.selectedFile).value.id == id) ==>
        store.selectedFile == old(store.selectedFile)
      ensures store.isLoading == old(store.isLoading)
    {
      store.RemoveFile(id);
      if store.selectedFile.Some? && store.selectedFile.value.id == id {
        store.SetSelectedFile(None);
      }
    }
  }
}
