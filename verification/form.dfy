/**
 The form component's state and its two event handlers, written as pure
 transitions. The lookup handler is split at its `await`: `SubmitLookup` is
 what happens before the request goes out, `ResolveLookup` what happens when
 it comes back.
 */
module Form {
  import opened Text
  import opened PostalApi
  import opened Pincode
  import opened NameFilter

  const NoDataMessage := "No data found"
  const FetchErrorMessage := "Error fetching data"

  /** The seven pieces of component state, one field each. */
  datatype FormState = FormState(
    pincode: string,
    data: seq<PostOffice>,
    filteredData: seq<PostOffice>,
    loading: bool,
    error: string,
    filterText: string,
    showResults: bool
  )

  /** The initial values of the seven state hooks. */
  const Initial := FormState("", [], [], false, "", "", false)

  /** The pincode box's change handler. */
  function EditPincode(s: FormState, text: string): (r: FormState)
    ensures r.pincode == text
    ensures r.(pincode := s.pincode) == s
  {
    s.(pincode := text)
  }

  /**
   The lookup handler up to the request: the error is cleared; an invalid
   pincode then sets the validation message and stops; a valid one raises
   the loading flag and hides the results.
   */
  function SubmitLookup(s: FormState): (r: FormState)
    ensures r.pincode == s.pincode && r.data == s.data
    ensures r.filteredData == s.filteredData && r.filterText == s.filterText
    ensures r.error == InvalidPincodeMessage <==> !IsValidPincode(s.pincode)
    ensures r.error == "" <==> IsValidPincode(s.pincode)
    ensures !IsValidPincode(s.pincode) ==> r.loading == s.loading && r.showResults == s.showResults
    ensures IsValidPincode(s.pincode) ==> r.loading && !r.showResults
  {
    var cleared := s.(error := "");
    if !IsValidPincode(s.pincode) then
      cleared.(error := InvalidPincodeMessage)
    else
      cleared.(loading := true, showResults := false)
  }

  /**
   The lookup handler after the request: the records are stored on success;
   otherwise the data is emptied and an error recorded (the service's message,
   or a fallback when that is empty, or the fixed transport message). Whatever
   the outcome, loading ends and the results are shown.
   */
  function ResolveLookup(s: FormState, o: Outcome): (r: FormState)
    ensures !r.loading && r.showResults
    ensures r.pincode == s.pincode && r.filterText == s.filterText
    ensures r.filteredData == r.data
    ensures Succeeded(o) ==> r.data == o.postOffice.value && r.error == s.error
    ensures !Succeeded(o) ==> r.data == [] && r.error != ""
    ensures o.Response? && !Succeeded(o) && o.message != "" ==> r.error == o.message
    ensures o.Response? && !Succeeded(o) && o.message == "" ==> r.error == NoDataMessage
    ensures o.TransportFailure? ==> r.error == FetchErrorMessage
    ensures s.error == "" ==> (r.error == "" <==> Succeeded(o))
  {
    match o
    case TransportFailure =>
      s.(error := FetchErrorMessage, data := [], filteredData := [], showResults := true, loading := false)
    case Response(message, status, postOffice) =>
      if status == SuccessStatus && postOffice.Some? then
        s.(data := postOffice.value, filteredData := postOffice.value, showResults := true, loading := false)
      else
        s.(error := if message != "" then message else NoDataMessage,
           data := [], filteredData := [], showResults := true, loading := false)
  }

  /**
   The filter box's change handler: record the text and recompute the visible
   list from the full data, never from the previous visible list.
   */
  function ApplyFilter(s: FormState, text: string): (r: FormState)
    ensures r.filterText == text
    ensures r.(filteredData := s.filteredData, filterText := s.filterText) == s
    ensures IsSubsequence(r.filteredData, s.data)
    ensures forall p :: p in r.filteredData <==> p in s.data && Matches(p, text)
    ensures forall p :: multiset(r.filteredData)[p] == if Matches(p, text) then multiset(s.data)[p] else 0
  {
    FilterIsSubsequence(s.data, text);
    forall p
      ensures p in FilterByName(s.data, text) <==> p in s.data && Matches(p, text)
      ensures multiset(FilterByName(s.data, text))[p] == if Matches(p, text) then multiset(s.data)[p] else 0
    {
      FilterMembership(s.data, text, p);
      FilterMultiplicity(s.data, text, p);
    }
    s.(filterText := text, filteredData := FilterByName(s.data, text))
  }

  /** The full lookup, when the request comes back with a list of records. */
  lemma LookupSuccess(s: FormState, message: string, records: seq<PostOffice>)
    requires IsValidPincode(s.pincode)
    ensures var r := ResolveLookup(SubmitLookup(s), Response(message, SuccessStatus, Some(records)));
      r.data == records && r.filteredData == records && r.error == ""
      && !r.loading && r.showResults && r.pincode == s.pincode
  {
  }

  /** A sequence of keystrokes in the filter box, applied one after another. */
  function ApplyFilters(s: FormState, texts: seq<string>): (r: FormState)
    ensures r.data == s.data
    decreases |texts|
  {
    if |texts| == 0 then s else ApplyFilters(ApplyFilter(s, texts[0]), texts[1..])
  }

  /**
   Filtering is not cumulative: after any sequence of queries the state is
   what the last query alone would give.
   */
  lemma {:induction false} OnlyLastFilterCounts(s: FormState, texts: seq<string>)
    requires |texts| > 0
    ensures ApplyFilters(s, texts) == ApplyFilter(s, texts[|texts| - 1])
    decreases |texts|
  {
    if |texts| > 1 {
      OnlyLastFilterCounts(ApplyFilter(s, texts[0]), texts[1..]);
    }
  }

  /** An empty query shows all of the data. */
  lemma EmptyFilterShowsAll(s: FormState)
    ensures ApplyFilter(s, "").filteredData == s.data
  {
    FilterEmptyText(s.data);
  }
}
