/** The front end's claim store (frontend/src/stores/MRFStore.ts): the
    parsed claims, the set of selected row indices and the approved subset,
    with the actions that change them. The observable store object is
    modelled as an immutable record; each action maps a store to its
    successor. */
module MrfStore {
  import opened Results
  import opened ClaimSchema

  /** An uploaded file, known here only by its name. */
  datatype Upload = Upload(name: string)

  /** A generated file as the listing delivers it to the front end; the
      creation time stays the ISO-8601 text it arrives as. */
  datatype MrfFile = MrfFile(
    id: string,
    filename: string,
    customer: string,
    createdAt: string,
    size: nat,
    recordCount: nat)

  datatype Store = Store(
    uploadedFile: Option<Upload>,
    parsedData: seq<Claim>,
    validationErrors: seq<string>,
    isUploading: bool,
    isParsing: bool,
    selectedClaims: set<nat>,
    approvedClaims: seq<Claim>,
    isSubmitting: bool,
    mrfFiles: seq<MrfFile>,
    isLoadingFiles: bool)

  /** The store as constructed. */
  const Initial := Store(None, [], [], false, false, {}, [], false, [], false)

  /** `setUploadedFile`: records the file; clearing it also clears the parsed
      data and the validation errors. */
  function SetUploadedFile(s: Store, file: Option<Upload>): (r: Store)
    ensures r.uploadedFile == file
    ensures file.None? ==> r.parsedData == [] && r.validationErrors == []
    ensures file.Some? ==> r.parsedData == s.parsedData && r.validationErrors == s.validationErrors
    ensures r.(uploadedFile := s.uploadedFile, parsedData := s.parsedData,
               validationErrors := s.validationErrors) == s
  {
    if file.None? then s.(uploadedFile := file, parsedData := [], validationErrors := [])
    else s.(uploadedFile := file)
  }

  /** `toggleClaimSelection`: flips whether `index` is selected. */
  function ToggleClaimSelection(s: Store, index: nat): (r: Store)
    ensures index in r.selectedClaims <==> index !in s.selectedClaims
    ensures forall j :: j != index ==> (j in r.selectedClaims <==> j in s.selectedClaims)
    ensures r.(selectedClaims := s.selectedClaims) == s
  {
    if index in s.selectedClaims then s.(selectedClaims := s.selectedClaims - {index})
    else s.(selectedClaims := s.selectedClaims + {index})
  }

  /** Toggling the same index twice restores the store. */
  lemma ToggleTwice(s: Store, index: nat)
    ensures ToggleClaimSelection(ToggleClaimSelection(s, index), index) == s
  {
    var r := ToggleClaimSelection(ToggleClaimSelection(s, index), index);
    assert r.selectedClaims == s.selectedClaims;
  }

  /** `selectAllClaims`: clears the selection, then adds every index of the
      parsed data. */
  method SelectAllClaims(s: Store) returns (r: Store)
    ensures forall j: nat :: j in r.selectedClaims <==> j < |s.parsedData|
    ensures |r.selectedClaims| == |s.parsedData|
    ensures r.(selectedClaims := s.selectedClaims) == s
  {
    var selected: set<nat> := {};
    var i := 0;
    while i < |s.parsedData|
      invariant 0 <= i <= |s.parsedData|
      invariant forall j: nat :: j in selected <==> j < i
      invariant |selected| == i
    {
      selected := selected + {i};
      i := i + 1;
    }
    r := s.(selectedClaims := selected);
  }

  /** `deselectAllClaims`. */
  function DeselectAllClaims(s: Store): (r: Store)
    ensures r.selectedClaims == {}
    ensures r.(selectedClaims := s.selectedClaims) == s
  {
    s.(selectedClaims := {})
  }

  /** `data.filter((_, index) => selected.has(index))`, from position `from`
      on. */
  function FilterSelected(data: seq<Claim>, selected: set<nat>, from: nat): seq<Claim>
    requires from <= |data|
    decreases |data| - from
  {
    if from == |data| then []
    else (if from in selected then [data[from]] else []) + FilterSelected(data, selected, from + 1)
  }

  /** The selected positions in `[from, n)`, in increasing order. */
  function SelectedIndices(selected: set<nat>, from: nat, n: nat): (idx: seq<nat>)
    requires from <= n
    ensures forall k :: 0 <= k < |idx| ==> from <= idx[k] < n && idx[k] in selected
    ensures forall k, l :: 0 <= k < l < |idx| ==> idx[k] < idx[l]
    ensures forall j :: from <= j < n && j in selected ==> j in idx
    decreases n - from
  {
    if from == n then []
    else (if from in selected then [from] else []) + SelectedIndices(selected, from + 1, n)
  }

  lemma {:induction false} FilterSelectedPicks(data: seq<Claim>, selected: set<nat>, from: nat)
    requires from <= |data|
    ensures var idx := SelectedIndices(selected, from, |data|);
      && |FilterSelected(data, selected, from)| == |idx|
      && forall k :: 0 <= k < |idx| ==> FilterSelected(data, selected, from)[k] == data[idx[k]]
    decreases |data| - from
  {
    if from < |data| {
      FilterSelectedPicks(data, selected, from + 1);
    }
  }

  /** `approveClaims`: the approved claims are the parsed claims at the
      selected positions, in increasing position order; the parsed data and
      the selection are left alone. */
  function ApproveClaims(s: Store): (r: Store)
    ensures var idx := SelectedIndices(s.selectedClaims, 0, |s.parsedData|);
      && |r.approvedClaims| == |idx|
      && forall k :: 0 <= k < |idx| ==> r.approvedClaims[k] == s.parsedData[idx[k]]
    ensures r.(approvedClaims := s.approvedClaims) == s
  {
    FilterSelectedPicks(s.parsedData, s.selectedClaims, 0);
    s.(approvedClaims := FilterSelected(s.parsedData, s.selectedClaims, 0))
  }

  /** Selected indices beyond the parsed data contribute nothing. */
  lemma {:induction false} OutOfRangeSelectionIgnored(data: seq<Claim>, selected: set<nat>,
                                                      extra: set<nat>, from: nat)
    requires from <= |data|
    requires forall j :: j in extra ==> j >= |data|
    ensures FilterSelected(data, selected + extra, from) == FilterSelected(data, selected, from)
    decreases |data| - from
  {
    if from < |data| {
      OutOfRangeSelectionIgnored(data, selected, extra, from + 1);
    }
  }

  /** Approving everything approves the parsed data; approving nothing
      approves nothing. */
  lemma {:induction false} ApproveAllOrNone(data: seq<Claim>, from: nat, selected: set<nat>)
    requires from <= |data|
    ensures (forall j :: from <= j < |data| ==> j in selected) ==>
      FilterSelected(data, selected, from) == data[from..]
    ensures (forall j :: from <= j < |data| ==> j !in selected) ==>
      FilterSelected(data, selected, from) == []
    decreases |data| - from
  {
    if from < |data| {
      ApproveAllOrNone(data, from + 1, selected);
      assert data[from..] == [data[from]] + data[from + 1..];
    }
  }

  /** `reset`: back to the initial upload and approval state; the loaded file
      list and its loading flag survive. */
  function Reset(s: Store): (r: Store)
    ensures r.uploadedFile.None? && r.parsedData == [] && r.validationErrors == []
    ensures r.selectedClaims == {} && r.approvedClaims == []
    ensures !r.isUploading && !r.isParsing && !r.isSubmitting
    ensures r.mrfFiles == s.mrfFiles && r.isLoadingFiles == s.isLoadingFiles
  {
    s.(uploadedFile := None, parsedData := [], validationErrors := [], selectedClaims := {},
       approvedClaims := [], isUploading := false, isParsing := false, isSubmitting := false)
  }

  /** A reset store is the initial store except for the file list and its
      loading flag. */
  lemma ResetIsInitial(s: Store)
    ensures Reset(s) == Initial.(mrfFiles := s.mrfFiles, isLoadingFiles := s.isLoadingFiles)
  {
  }
}
