/**
  The file registry (lib/store/fileSlice.ts): the list of uploaded files, the
  selected file and a loading flag, updated in place by five reducers.
*/
module FileSlice {
  import opened Wrappers
  import opened JsValues
  import opened Extraction

  datatype FileStatus = Processing | Completed | Error

  /** One registry entry; `data`, `columns` and `debugInfo` are present only once a file is processed. */
  datatype UploadedFile = UploadedFile(
    id: string,
    name: string,
    size: nat,
    uploadDate: string,
    status: FileStatus,
    data: Option<seq<Record>>,
    columns: Option<seq<string>>,
    debugInfo: Option<DebugInfo>)

  predicate HasId(files: seq<UploadedFile>, id: string) {
    exists i :: 0 <= i < |files| && files[i].id == id
  }

  /** `files.filter(file => file.id !== id)`. */
  function WithoutId(files: seq<UploadedFile>, id: string): (r: seq<UploadedFile>)
    ensures |r| <= |files|
    ensures forall i :: 0 <= i < |r| ==> r[i].id != id
  {
    if files == [] then [] else (if files[0].id == id then [] else [files[0]]) + WithoutId(files[1..], id)
  }

  /** The entries kept are exactly the entries with another id. */
  lemma {:induction false} WithoutIdMembers(files: seq<UploadedFile>, id: string)
    ensures forall f :: f in WithoutId(files, id) <==> f in files && f.id != id
  {
    if files != [] {
      WithoutIdMembers(files[1..], id);
      assert forall f :: f in files <==> f == files[0] || f in files[1..];
    }
  }

  /** Removing an id no entry carries changes nothing. */
  lemma {:induction false} WithoutAbsentId(files: seq<UploadedFile>, id: string)
    requires !HasId(files, id)
    ensures WithoutId(files, id) == files
  {
    if files != [] {
      forall i | 0 <= i < |files[1..]|
        ensures files[1..][i].id != id
      {
        assert files[1..][i] == files[i + 1];
      }
      WithoutAbsentId(files[1..], id);
    }
  }

  /** An id carried by neither list is carried by neither's concatenation. */
  lemma NoIdInConcat(a: seq<UploadedFile>, b: seq<UploadedFile>, id: string)
    requires !HasId(a, id) && !HasId(b, id)
    ensures !HasId(a + b, id)
  {
    forall k | 0 <= k < |a + b|
      ensures (a + b)[k].id != id
    {
      if k >= |a| {
        assert (a + b)[k] == b[k - |a|];
      }
    }
  }

  /** Removal keeps the remaining entries in their order: it distributes over concatenation. */
  lemma {:induction false} WithoutIdConcat(a: seq<UploadedFile>, b: seq<UploadedFile>, id: string)
    ensures WithoutId(a + b, id) == WithoutId(a, id) + WithoutId(b, id)
  {
    if a == [] {
      assert a + b == b;
    } else {
      assert (a + b)[1..] == a[1..] + b;
      WithoutIdConcat(a[1..], b, id);
    }
  }

  /** The entries with the given id are exactly the ones that go: the kept count is the count of other ids. */
  lemma {:induction false} WithoutIdCount(files: seq<UploadedFile>, id: string)
    ensures |WithoutId(files, id)| == |files| - CountId(files, id)
  {
    if files != [] {
      WithoutIdCount(files[1..], id);
    }
  }

  function CountId(files: seq<UploadedFile>, id: string): (n: nat)
    ensures n <= |files|
  {
    if files == [] then 0 else (if files[0].id == id then 1 else 0) + CountId(files[1..], id)
  }

  class FileStore {
    var files: seq<UploadedFile>
    var selectedFile: Option<UploadedFile>
    var isLoading: bool

    /** The initial state: no files, no selection, not loading. */
    constructor ()
      ensures files == [] && selectedFile == None && !isLoading
    {
      files := [];
      selectedFile := None;
      isLoading := false;
    }

    /** `setFiles`: the whole list is replaced. */
    method SetFiles(payload: seq<UploadedFile>)
      modifies this
      ensures files == payload
      ensures selectedFile == old(selectedFile) && isLoading == old(isLoading)
    {
      files := payload;
    }

    /** `addFile`: the entry is appended; the existing entries and their order stay. */
    method AddFile(file: UploadedFile)
      modifies this
      ensures files == old(files) + [file]
      ensures selectedFile == old(selectedFile) && isLoading == old(isLoading)
    {
      files := files + [file];
    }

    /** `removeFile`: every entry with the id goes; the selection is not touched. */
    method RemoveFile(id: string)
      modifies this
      ensures files == WithoutId(old(files), id)
      ensures selectedFile == old(selectedFile) && isLoading == old(isLoading)
    {
      files := WithoutId(files, id);
    }

    /** `setSelectedFile`: only the selection changes. */
    method SetSelectedFile(file: Option<UploadedFile>)
      modifies this
      ensures selectedFile == file
      ensures files == old(files) && isLoading == old(isLoading)
    {
      selectedFile := file;
    }

    /** `setLoading`: only the flag changes. */
    method SetLoading(loading: bool)
      modifies this
      ensures isLoading == loading
      ensures files == old(files) && selectedFile == old(selectedFile)
    {
      isLoading := loading;
    }
  }
}
