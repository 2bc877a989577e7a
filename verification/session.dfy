/**
 The component driven by user events and by the arrival of lookup responses.
 An event is only possible when the control that raises it is on screen, and
 a response only arrives for a request that was sent and not yet answered.
 The Lookup button stays on screen while a request is in flight, so several
 requests can be outstanding at once; their responses arrive one at a time,
 each with an arbitrary outcome.
 */
module Session {
  import opened PostalApi
  import opened Pincode
  import opened NameFilter
  import opened Form
  import opened Screen

  /** The component state and the number of requests still awaiting their response. */
  datatype Page = Page(form: FormState, pending: nat)

  const Start := Page(Initial, 0)

  datatype Event =
    | TypePincode(text: string)
    | ClickLookup
    | Arrive(outcome: Outcome)
    | TypeFilter(text: string)

  /**
   The pincode box and the Lookup button belong to the entry form; the filter
   box to the listing of the results panel; a response needs an outstanding
   request.
   */
  predicate Enabled(p: Page, e: Event)
    ensures e.TypePincode? || e.ClickLookup? ==> (Enabled(p, e) <==> Render(p.form).EntryForm?)
    ensures e.TypeFilter? ==>
      (Enabled(p, e) <==> Render(p.form).ResultsPanel? && Render(p.form).listing.Some?)
    ensures e.Arrive? ==> (Enabled(p, e) <==> p.pending > 0)
  {
    match e
    case TypePincode(_) => !p.form.showResults
    case ClickLookup => !p.form.showResults
    case Arrive(_) => p.pending > 0
    case TypeFilter(_) => p.form.showResults && !p.form.loading && p.form.error == ""
  }

  /** A click on Lookup that passes validation, and so sends a request. */
  predicate Sends(p: Page, e: Event) {
    e.ClickLookup? && IsValidPincode(p.form.pincode)
  }

  /**
   One event: a keystroke in one of the two boxes, a click on Lookup, or the
   arrival of a response. Each event writes only the fields its handler sets,
   and the count of outstanding requests rises with each request sent and
   falls with each response.
   */
  function Step(p: Page, e: Event): (q: Page)
    requires Enabled(p, e)
    ensures e.TypePincode? ==> q.form.pincode == e.text
    ensures e.TypePincode? || q.form.pincode == p.form.pincode
    ensures e.TypeFilter? ==> q.form.filterText == e.text
    ensures e.TypeFilter? || q.form.filterText == p.form.filterText
    ensures e.Arrive? || q.form.data == p.form.data
    ensures e.Arrive? || e.TypeFilter? || q.form.filteredData == p.form.filteredData
    ensures e.Arrive? || e.ClickLookup? || q.form.error == p.form.error
    ensures e.Arrive? ==> q.form.showResults && !q.form.loading
    ensures Sends(p, e) ==> q.form.loading && !q.form.showResults
    ensures !e.Arrive? && !Sends(p, e) ==>
      q.form.showResults == p.form.showResults && q.form.loading == p.form.loading
    ensures q.pending == p.pending + (if Sends(p, e) then 1 else 0) - (if e.Arrive? then 1 else 0)
  {
    match e
    case TypePincode(text) => p.(form := EditPincode(p.form, text))
    case ClickLookup =>
      Page(SubmitLookup(p.form), if Sends(p, e) then p.pending + 1 else p.pending)
    case Arrive(o) => Page(ResolveLookup(p.form, o), p.pending - 1)
    case TypeFilter(text) => p.(form := ApplyFilter(p.form, text))
  }

  /** Runs the events in order; `None` when one of them is not possible at its turn. */
  function Run(p: Page, events: seq<Event>): Option<Page>
    decreases |events|
  {
    if |events| == 0 then Some(p)
    else if !Enabled(p, events[0]) then None
    else Run(Step(p, events[0]), events[1..])
  }

  /** The visible list is the filter of the full data by the text in the filter box. */
  predicate InSync(f: FormState) {
    f.filteredData == FilterByName(f.data, f.filterText)
  }

  /**
   What holds in every reachable state: loading means a request is
   outstanding and the results are hidden; while the results are hidden the
   filter text is empty; the visible list is either the full data (as the
   last response left it) or its filter by the current text.
   */
  ghost predicate Invariant(p: Page) {
    && (p.form.loading ==> p.pending > 0 && !p.form.showResults)
    && (!p.form.showResults ==> p.form.filterText == "")
    && (p.form.filteredData == p.form.data || InSync(p.form))
  }

  /**
   What holds as long as no request is sent while another is outstanding: at
   most one request is in flight, none once the results are shown, and the
   visible list always matches the filter box.
   */
  ghost predicate SingleFlight(p: Page) {
    && Invariant(p)
    && p.pending <= 1
    && (p.form.showResults ==> p.pending == 0)
    && InSync(p.form)
  }

  /** The events of a run from `p` never send a request while another is outstanding. */
  ghost predicate NoOverlap(p: Page, events: seq<Event>)
    decreases |events|
  {
    if |events| == 0 || !Enabled(p, events[0]) then true
    else !(Sends(p, events[0]) && p.pending > 0) && NoOverlap(Step(p, events[0]), events[1..])
  }

  lemma InitialInvariant()
    ensures Invariant(Start) && SingleFlight(Start)
  {
  }

  lemma StepPreservesInvariant(p: Page, e: Event)
    requires Invariant(p) && Enabled(p, e)
    ensures Invariant(Step(p, e))
  {
  }

  lemma {:induction false} RunPreservesInvariant(p: Page, events: seq<Event>, q: Page)
    requires Invariant(p) && Run(p, events) == Some(q)
    ensures Invariant(q)
    decreases |events|
  {
    if |events| > 0 {
      StepPreservesInvariant(p, events[0]);
      RunPreservesInvariant(Step(p, events[0]), events[1..], q);
    }
  }

  /**
   Every possible event other than a second request keeps a single request in
   flight and the visible list in step with the filter box.
   */
  lemma StepKeepsSingleFlight(p: Page, e: Event)
    requires SingleFlight(p) && Enabled(p, e) && !(Sends(p, e) && p.pending > 0)
    ensures SingleFlight(Step(p, e))
  {
    if e.Arrive? {
      FilterEmptyText(Step(p, e).form.data);
    }
  }

  lemma {:induction false} RunKeepsSingleFlight(p: Page, events: seq<Event>, q: Page)
    requires SingleFlight(p) && NoOverlap(p, events) && Run(p, events) == Some(q)
    ensures SingleFlight(q)
    decreases |events|
  {
    if |events| > 0 {
      StepKeepsSingleFlight(p, events[0]);
      RunKeepsSingleFlight(Step(p, events[0]), events[1..], q);
    }
  }

  /**
   In every reachable state the "Loading..." line of the results panel is not
   rendered, and the count line shows either all records of the last response
   or those whose name matches the filter text. Without overlapping requests
   it is always the latter.
   */
  lemma ReachableScreen(events: seq<Event>, q: Page)
    requires Run(Start, events) == Some(q)
    ensures Invariant(q)
    ensures Render(q.form).ResultsPanel? ==> !Render(q.form).loadingLine
    ensures Render(q.form).ResultsPanel? && Render(q.form).listing.Some? ==>
      Render(q.form).listing.value.count in {|q.form.data|, |FilterByName(q.form.data, q.form.filterText)|}
    ensures NoOverlap(Start, events) && Render(q.form).ResultsPanel? && Render(q.form).listing.Some? ==>
      Render(q.form).listing.value.count == |FilterByName(q.form.data, q.form.filterText)|
  {
    InitialInvariant();
    RunPreservesInvariant(Start, events, q);
    if NoOverlap(Start, events) {
      RunKeepsSingleFlight(Start, events, q);
    }
  }

  /**
   Once the results are shown they stay shown: the entry form, and with it any
   new request, never comes back, so the pincode is fixed and nothing loads.
   Only responses still outstanding can change the data and the error; when
   none is outstanding, only the filter text and the visible list can change.
   */
  lemma {:induction false} ResultsStayShown(p: Page, events: seq<Event>, q: Page)
    requires Invariant(p) && p.form.showResults && Run(p, events) == Some(q)
    ensures q.form.showResults && !q.form.loading && q.form.pincode == p.form.pincode
    ensures q.pending <= p.pending
    ensures p.pending == 0 ==> q.form.data == p.form.data && q.form.error == p.form.error
    decreases |events|
  {
    if |events| > 0 {
      StepPreservesInvariant(p, events[0]);
      ResultsStayShown(Step(p, events[0]), events[1..], q);
    }
  }

  /**
   A refused pincode keeps the entry form on screen with the validation
   message; no request is sent.
   */
  lemma RefusedPincode(p: Page)
    requires !p.form.showResults && !IsValidPincode(p.form.pincode)
    ensures Run(p, [ClickLookup]).Some?
    ensures var q := Run(p, [ClickLookup]).value;
      Render(q.form) == EntryForm(p.form.pincode, Some(InvalidPincodeMessage))
      && q.pending == p.pending && q.form.loading == p.form.loading && q.form.data == p.form.data
  {
    assert Run(p, [ClickLookup]) == Run(Step(p, ClickLookup), []);
  }

  /**
   Submitting a valid pincode and receiving a list of records shows the
   results panel with every record, the count of all of them, and an empty
   filter box.
   */
  lemma SuccessfulLookupShowsAll(p: Page, message: string, records: seq<PostOffice>)
    requires Invariant(p) && !p.form.showResults && IsValidPincode(p.form.pincode)
    ensures var events := [ClickLookup, Arrive(Response(message, SuccessStatus, Some(records)))];
      Run(p, events).Some?
      && Run(p, events).value.pending == p.pending
      && Render(Run(p, events).value.form)
         == ResultsPanel(p.form.pincode, false, None, Some(Listing(|records|, "", records, records == [])))
  {
    var e := Arrive(Response(message, SuccessStatus, Some(records)));
    var mid := Step(p, ClickLookup);
    assert Run(p, [ClickLookup, e]) == Run(mid, [e]);
    assert Run(mid, [e]) == Run(Step(mid, e), []);
  }

  /**
   Any other outcome shows the results panel with its error line and without
   the count line, the filter box or any card.
   */
  lemma FailedLookupShowsError(p: Page, o: Outcome)
    requires !p.form.showResults && IsValidPincode(p.form.pincode) && !Succeeded(o)
    ensures Run(p, [ClickLookup, Arrive(o)]).Some?
    ensures var q := Run(p, [ClickLookup, Arrive(o)]).value;
      Render(q.form) == ResultsPanel(p.form.pincode, false, Some(q.form.error), None)
      && q.form.error in {FetchErrorMessage, NoDataMessage, if o.Response? then o.message else ""}
      && q.form.error != ""
  {
    var mid := Step(p, ClickLookup);
    assert Run(p, [ClickLookup, Arrive(o)]) == Run(mid, [Arrive(o)]);
    assert Run(mid, [Arrive(o)]) == Run(Step(mid, Arrive(o)), []);
  }

  /**
   A refused second click while a request is in flight leaves its validation
   message in place, and when the first request then succeeds the results
   panel shows that message instead of the records.
   */
  lemma StaleValidationMessageHidesRecords(p: Page, bad: string, records: seq<PostOffice>)
    requires !p.form.showResults && IsValidPincode(p.form.pincode) && !IsValidPincode(bad)
    ensures var events := [ClickLookup, TypePincode(bad), ClickLookup,
                           Arrive(Response("", SuccessStatus, Some(records)))];
      Run(p, events).Some?
      && Render(Run(p, events).value.form) == ResultsPanel(bad, false, Some(InvalidPincodeMessage), None)
  {
    var p1 := Step(p, ClickLookup);
    var p2 := Step(p1, TypePincode(bad));
    var p3 := Step(p2, ClickLookup);
    var e := Arrive(Response("", SuccessStatus, Some(records)));
    assert Run(p, [ClickLookup, TypePincode(bad), ClickLookup, e]) == Run(p1, [TypePincode(bad), ClickLookup, e]);
    assert Run(p1, [TypePincode(bad), ClickLookup, e]) == Run(p2, [ClickLookup, e]);
    assert Run(p2, [ClickLookup, e]) == Run(p3, [e]);
    assert Run(p3, [e]) == Run(Step(p3, e), []);
  }

  /**
   Two clicks on Lookup with a valid pincode send two requests. The first
   response shows the results, the user filters them, and then the second
   response replaces the data and the visible list with all of its records
   while the filter box keeps the typed text: the list no longer matches the
   filter box, and a record the text does not match is shown.
   */
  lemma DoubleSubmitUnfiltersList(p: Page, first: seq<PostOffice>, second: seq<PostOffice>,
                                  text: string, r: PostOffice)
    requires !p.form.showResults && IsValidPincode(p.form.pincode)
    requires r in second && !Matches(r, text)
    ensures var events := [ClickLookup, ClickLookup, Arrive(Response("", SuccessStatus, Some(first))),
                           TypeFilter(text), Arrive(Response("", SuccessStatus, Some(second)))];
      Run(p, events).Some?
      && var q := Run(p, events).value;
      q.form.filterText == text && q.form.filteredData == second && !InSync(q.form)
      && Render(q.form) == ResultsPanel(p.form.pincode, false, None,
                                        Some(Listing(|second|, text, second, false)))
  {
    var e1 := Arrive(Response("", SuccessStatus, Some(first)));
    var e2 := Arrive(Response("", SuccessStatus, Some(second)));
    var p1 := Step(p, ClickLookup);
    var p2 := Step(p1, ClickLookup);
    var p3 := Step(p2, e1);
    var p4 := Step(p3, TypeFilter(text));
    var p5 := Step(p4, e2);
    assert Run(p, [ClickLookup, ClickLookup, e1, TypeFilter(text), e2]) == Run(p1, [ClickLookup, e1, TypeFilter(text), e2]);
    assert Run(p1, [ClickLookup, e1, TypeFilter(text), e2]) == Run(p2, [e1, TypeFilter(text), e2]);
    assert Run(p2, [e1, TypeFilter(text), e2]) == Run(p3, [TypeFilter(text), e2]);
    assert Run(p3, [TypeFilter(text), e2]) == Run(p4, [e2]);
    assert Run(p4, [e2]) == Run(p5, []);
    FilterMembership(second, text, r);
    assert r !in FilterByName(second, text);
  }

  /**
   Two clicks on Lookup with a valid pincode send two requests. When the first
   one fails and the second succeeds, the success branch stores the records
   but does not clear the error, so the results panel shows the fetch error
   and none of the records.
   */
  lemma EarlyFailureHidesLaterRecords(p: Page, message: string, records: seq<PostOffice>)
    requires !p.form.showResults && IsValidPincode(p.form.pincode)
    ensures var events := [ClickLookup, ClickLookup, Arrive(TransportFailure),
                           Arrive(Response(message, SuccessStatus, Some(records)))];
      Run(p, events).Some?
      && var q := Run(p, events).value;
      q.form.data == records && q.form.filteredData == records && q.pending == p.pending
      && Render(q.form) == ResultsPanel(p.form.pincode, false, Some(FetchErrorMessage), None)
  {
    var e1 := Arrive(TransportFailure);
    var e2 := Arrive(Response(message, SuccessStatus, Some(records)));
    var p1 := Step(p, ClickLookup);
    var p2 := Step(p1, ClickLookup);
    var p3 := Step(p2, e1);
    assert Run(p, [ClickLookup, ClickLookup, e1, e2]) == Run(p1, [ClickLookup, e1, e2]);
    assert Run(p1, [ClickLookup, e1, e2]) == Run(p2, [e1, e2]);
    assert Run(p2, [e1, e2]) == Run(p3, [e2]);
    assert Run(p3, [e2]) == Run(Step(p3, e2), []);
  }
}
