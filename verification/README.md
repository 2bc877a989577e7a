# Pincode lookup form, modelled in Dafny

The repository is a one-component React page. A user types a six-digit Indian
postal code (pincode) and presses Lookup. The page asks a public postal service
for the post offices under that code. It then lists them with a count line, and
a text box narrows the list by post-office name. This project models the logic
inside the component's two event handlers. It also models the conditions its
markup uses to decide what is visible. All of it is pure functions over an
immutable state record:

- `Text`: ASCII lower-casing and the substring test (`includes`), with the
  scan proved equal to "occurs at some position".
- `PostalApi`: the post-office record and the `Outcome` of a lookup. An outcome
  is a service response (message, status, optional list) or a transport failure.
- `Pincode`: the validation guard. It accepts exactly six ASCII digits.
- `NameFilter`: the case-insensitive name filter. It comes as a recursive
  definition and as a one-pass loop proved equal to it. Lemmas cover order,
  multiplicity, the empty query, idempotence, case-insensitivity and narrowing.
- `Form`: the seven-field state and the handlers. The lookup handler is split
  at its `await` into `SubmitLookup` (validation, then the loading state) and
  `ResolveLookup` (the success, service-empty and failure branches).
  `ApplyFilter` is the filter box's handler.
- `Screen`: which panel, message lines, count line and cards a state renders.
- `Session`: runs of user events and response arrivals, with a count of the
  requests still awaiting their response. An event is possible only when its
  control is on screen. A response arrives only for an outstanding request, and
  responses to several outstanding requests arrive one at a time. Every
  reachable state keeps an invariant. While no request is sent during another
  one, a stronger invariant also holds: the visible list is always the filter
  of the full data by the current text. Lemmas cover the whole round trips.

Some behaviours of the code are easy to miss, and the model follows the code
in each:

- A click that passes validation hides the results (my-app/src/App.tsx:35).
  The entry form is shown whenever the results are hidden, so the form, with
  its Lookup button, stays on screen and usable until the first response
  arrives. After that the results are shown even if a second request is
  still outstanding.
- The "Loading..." line in the results panel (my-app/src/App.tsx:106) is never
  rendered in any reachable state. Loading is raised in the same batch of
  updates that hides the results (lines 34-35). It is lowered in the same
  batch that shows them (line 44, 49 or 55, and line 57).
  `Session.ReachableScreen` proves this. The proof relies on React batching
  the updates made after the `await` (automatic batching, React 18 and
  later). Without batching, `setShowResults(true)` at line 44 would render
  once before `setLoading(false)` at line 57.
- Two clicks on Lookup with a valid pincode send two requests, and both
  responses are handled. If the user filters between them, the second
  response puts back the full list while the filter box keeps its text
  (`Session.DoubleSubmitUnfiltersList`). A failed second response instead
  replaces the shown records with its error. When the first response fails
  and the second succeeds, the records are stored but the fetch error stays,
  so the panel shows the error and no records
  (`Session.EarlyFailureHidesLaterRecords`).
- The success branch tests the list for truthiness. An empty list is truthy in
  JavaScript, so a "Success" response with an empty list shows the results
  panel with a count of 0 and the "Couldn't find" message, not an error.
- A second click while a request is in flight can leave a validation message
  in place. The success branch does not clear the error, so the results panel
  then shows that message instead of the records
  (`Session.StaleValidationMessageHidesRecords`).

## Model

| member | source | states |
|---|---|---|
| `Text.ToLower` | my-app/src/App.tsx:63 | lower-casing keeps the length and maps each character on its own: capitals A to Z to their lower-case letter, every other character to itself |
| `Text.ToLowerLowers` | my-app/src/App.tsx:63 | no capital A to Z survives lower-casing, and a string without capitals is left unchanged |
| `Text.Includes` | my-app/src/App.tsx:63 | `includes`: the empty query is always found, a found query is no longer than the name, and a prefix is found |
| `Text.IncludesIffOccurs` | my-app/src/App.tsx:63 | the left-to-right `includes` scan succeeds exactly when the query occurs as a contiguous slice at some position of the name |
| `Text.IncludesTransitive` | my-app/src/App.tsx:63 | a substring of a substring of a name is a substring of that name |
| `PostalApi.Succeeded` | my-app/src/App.tsx:41 | the success branch needs a response with a list; a "Success" status with an empty list takes it (an empty array is truthy); the status comparison is case-sensitive |
| `Pincode.MatchesDigits` | my-app/src/App.tsx:30 | the anchored expression `^\d{n}$` matches exactly the strings of length n made only of the characters '0' to '9' |
| `Pincode.IsValidPincode` | my-app/src/App.tsx:30 | the guard accepts a pincode iff it has length 6 and every character is an ASCII decimal digit |
| `Pincode.ValidationExamples` | my-app/src/App.tsx:30 | "560001" is accepted; "56001", "56A001", "" and a 7-digit code are refused |
| `NameFilter.Matches` | my-app/src/App.tsx:63 | the filter callback: the empty text matches every record, and a matching text is never longer than the name |
| `NameFilter.MatchesIffOccurs` | my-app/src/App.tsx:63 | the callback holds iff the lower-cased text occurs at some position of the lower-cased name |
| `NameFilter.FilterByName` | my-app/src/App.tsx:62-64 | the result is no longer than the data, and every record in it has a lower-cased name that includes the lower-cased text |
| `NameFilter.FilterIsSubsequence` | my-app/src/App.tsx:62-64 | the result is an order-preserving subsequence of the data |
| `NameFilter.FilterMembership` | my-app/src/App.tsx:62-64 | a record is in the result iff it is in the data and its lower-cased name includes the lower-cased text |
| `NameFilter.FilterPosts` | my-app/src/App.tsx:62-64 | a single left-to-right pass that appends each matching record computes exactly the filter's result |
| `NameFilter.FilterMultiplicity` | my-app/src/App.tsx:62-64 | a matching record occurs in the result as often as in the data; a non-matching one not at all |
| `NameFilter.FilterKeepsAllMatching` | my-app/src/App.tsx:62-64 | when every record matches, the filter returns the data unchanged |
| `NameFilter.FilterEmptyText` | my-app/src/App.tsx:62-64 | the empty query keeps every record, in order |
| `NameFilter.FilterIdempotent` | my-app/src/App.tsx:62-64 | filtering the filtered list again with the same query gives the same list |
| `NameFilter.FilterCaseInsensitive` | my-app/src/App.tsx:63 | the filter gives the same list for a query and for its lower-cased form |
| `NameFilter.FilterNarrowing` | my-app/src/App.tsx:62-64 | if the longer query includes the shorter one (both lower-cased), filtering the shorter query's result by the longer query equals filtering the data by the longer query |
| `NameFilter.FilterAppend` | my-app/src/App.tsx:62-64 | filtering a concatenation is the concatenation of the filtered parts |
| `FilterExamples.SampleQueries` | my-app/src/App.tsx:62-64 | on the records "Ramanthapur S.O" and "Ramnagar S.O", the query "RAM" keeps both and "xyz" keeps none |
| `Form.EditPincode` | my-app/src/App.tsx:76 | typing in the pincode box replaces the pincode and nothing else |
| `Form.SubmitLookup` | my-app/src/App.tsx:29-35 | an invalid pincode leaves the error "Pincode must be 6 digits!" with loading, results, data, list and filter text unchanged; a valid one leaves an empty error, loading on and results hidden, with the data untouched |
| `Form.ResolveLookup` | my-app/src/App.tsx:36-57 | afterwards loading is off and the results are shown. On success the data and visible list are the returned records verbatim and the error is untouched. Otherwise both are empty and the error is the service message, "No data found" if that message is empty, or "Error fetching data" on transport failure. From a cleared error, the error stays empty iff the lookup succeeded |
| `Form.LookupSuccess` | my-app/src/App.tsx:28-57 | a valid pincode followed by a successful response ends with data = visible list = the records, empty error, loading off and results shown |
| `Form.ApplyFilter` | my-app/src/App.tsx:60-66 | the filter text becomes the typed text; the visible list is a subsequence of the full data holding exactly its matching records, each as many times as in the data; every other field, the data included, is unchanged |
| `Form.OnlyLastFilterCounts` | my-app/src/App.tsx:60-66 | after any non-empty sequence of filter keystrokes the state equals what the last text alone produces |
| `Form.EmptyFilterShowsAll` | my-app/src/App.tsx:60-66 | clearing the filter box shows all of the data |
| `Screen.ErrorLine` | my-app/src/App.tsx:99 | an error line is rendered iff the error is non-empty, and then it shows the error |
| `Screen.Render` | my-app/src/App.tsx:68-157 | the entry form shows iff the results are hidden. The count line and filter box show iff nothing is loading and there is no error. The count equals the number of cards, which is the visible list's length. The "Couldn't find" message shows iff there are no cards |
| `Session.Step` | my-app/src/App.tsx:28-122 | each event writes only what its handler sets: the pincode only by typing in the pincode box (line 76), the filter text only by typing in the filter box (line 116), the data only by a response; a response leaves loading off and the results shown; a request sent leaves loading on and the results hidden; the count of outstanding requests rises by one per request sent and falls by one per response |
| `Session.Enabled` | my-app/src/App.tsx:70-122 | the pincode box and Lookup button are usable iff the entry form is rendered (line 70); the filter box iff the results panel shows its listing (lines 103 and 109); a response can arrive iff a request is outstanding |
| `Session.StepPreservesInvariant` | my-app/src/App.tsx:28-66 | every possible event, including any response to any outstanding request, preserves: loading implies a request is outstanding and the results are hidden; hidden results imply an empty filter text; the visible list is the full data or its filter by the filter text |
| `Session.RunPreservesInvariant` | my-app/src/App.tsx:28-66 | any run of possible events preserves that invariant |
| `Session.StepKeepsSingleFlight` | my-app/src/App.tsx:28-66 | every possible event except sending a request while another is outstanding keeps: at most one request in flight, none once results are shown, and the visible list equal to the filter of the data by the filter text |
| `Session.RunKeepsSingleFlight` | my-app/src/App.tsx:28-66 | a run that never sends a request while another is outstanding keeps that stronger invariant |
| `Session.ReachableScreen` | my-app/src/App.tsx:103-111 | in every reachable state the "Loading..." line is not rendered, and the count line shows either all records of the last response or the records matching the filter text; in runs without overlapping requests, always the matching records |
| `Session.ResultsStayShown` | my-app/src/App.tsx:70-103 | once the results are shown they stay shown, nothing loads again, the pincode never changes and no new request is sent; with no request outstanding, data and error never change either |
| `Session.DoubleSubmitUnfiltersList` | my-app/src/App.tsx:41-65 | two valid clicks, a first response, a filter text and then a second response end with the full second list displayed under the typed filter text, out of step with the filter |
| `Session.EarlyFailureHidesLaterRecords` | my-app/src/App.tsx:41-57 | two valid clicks, a failed first response and a successful second one leave the records as both the data and the visible list, yet the panel shows "Error fetching data" and no count line or cards, since the success branch does not clear the error |
| `Session.RefusedPincode` | my-app/src/App.tsx:29-33 | clicking Lookup with an invalid pincode keeps the entry form on screen with the validation message, sends no request, and keeps the loading flag and data as before |
| `Session.SuccessfulLookupShowsAll` | my-app/src/App.tsx:34-44 | a valid pincode and a successful response render the results panel: no loading or error line, count = number of records, empty filter box, all records as cards |
| `Session.FailedLookupShowsError` | my-app/src/App.tsx:45-57 | a valid pincode and any other outcome render the results panel with a non-empty error line and no count line, filter box or cards |
| `Session.StaleValidationMessageHidesRecords` | my-app/src/App.tsx:28-57 | a refused second click during a pending request leaves its message, and the later success then shows that message instead of the records |

## Left out

- The HTTP request, its URL template and the JSON decoding (my-app/src/App.tsx:37-40). They belong to a network client and a foreign library. The model takes their result as an `Outcome` value. A body whose first element is undefined or null (an empty body, an empty array, a JSON object, number or boolean) throws inside the `try`, so it is a `TransportFailure`. A 2xx body that is not valid JSON is passed on as a string by the HTTP client's default settings; its first character has no `Status`, so it is `Response("", "", None)` and shows "No data found".
- A `Message` field that is absent or null is modelled as the empty string. Both are falsy, so both select "No data found".
- The suspension at `await` and React's batching of state updates are collapsed into two discrete transitions. Several successive setter calls in one handler are modelled by their final values.
- Overlapping requests are modelled by a count of outstanding requests. Which request a response answers is not tracked, and its outcome is an arbitrary input. The URL of each request does not enter the model.
- Session.ReachableScreen: the "Loading..." half assumes React batches the state updates after the `await` (React 18 automatic batching); intermediate renders between two setter calls are not modelled.
- Text.ToLower: lower-cases only the ASCII letters A to Z, a weaker model than JavaScript's full Unicode `toLowerCase`.
- JavaScript measures string length in UTF-16 code units, while a Dafny `char` is one Unicode scalar value. The validator's verdict is the same either way, since accepted strings are ASCII.
- Styling, the `maxLength` attribute of the pincode box, the list keys and the static labels of the markup (my-app/src/App.tsx:68-157). They are presentation only. `Screen.Render` keeps only what depends on state.
