/**
 What the component renders for a given state, reduced to the parts that
 depend on the state: which panel is visible, which message lines appear,
 the count line, the filter box and the cards.
 */
module Screen {
  import opened PostalApi
  import opened Form

  /** The part of the results panel shown when nothing is loading and there is no error. */
  datatype Listing = Listing(count: nat, filterText: string, cards: seq<PostOffice>, showsNotFound: bool)

  datatype View =
    | EntryForm(pincode: string, errorLine: Option<string>)
    | ResultsPanel(pincode: string, loadingLine: bool, errorLine: Option<string>, listing: Option<Listing>)

  /** `{error && <p>{error}</p>}`: the empty string is falsy and renders nothing. */
  function ErrorLine(error: string): (line: Option<string>)
    ensures line.Some? <==> error != ""
    ensures line.Some? ==> line.value == error
  {
    if error != "" then Some(error) else None
  }

  function Render(s: FormState): (v: View)
    ensures v.EntryForm? <==> !s.showResults
    ensures v.pincode == s.pincode
    ensures v.errorLine.Some? <==> s.error != ""
    ensures v.ResultsPanel? ==> (v.listing.Some? <==> !s.loading && s.error == "")
    ensures v.ResultsPanel? && v.listing.Some? ==>
      v.listing.value.count == |v.listing.value.cards| == |s.filteredData|
      && (v.listing.value.showsNotFound <==> v.listing.value.cards == [])
  {
    if !s.showResults then
      EntryForm(s.pincode, ErrorLine(s.error))
    else
      var listing :=
        if !s.loading && s.error == "" then
          Some(Listing(|s.filteredData|, s.filterText, s.filteredData, |s.filteredData| == 0))
        else None;
      ResultsPanel(s.pincode, s.loading, ErrorLine(s.error), listing)
  }
}
