/**
 The shapes exchanged with the postal lookup service: one post-office record,
 and what a lookup request can come back with.
 */
module PostalApi {

  datatype Option<+T> = None | Some(value: T)

  /** One post office, with the five fields the service returns for it. */
  datatype PostOffice = PostOffice(
    name: string,
    branchType: string,
    deliveryStatus: string,
    district: string,
    division: string
  )

  /**
   What the awaited lookup produces. `Response` is the first element of the
   response body, read as an array; its `postOffice` list may be null or
   absent, hence the `Option`, and an absent or falsy `Message` is the empty
   string. A 2xx body that is not valid JSON is handed over as a string, and
   its first character has no `Status`, `Message` or `PostOffice`: that is
   `Response("", "", None)`. `TransportFailure` stands for everything that
   throws inside the `try`: a network error, a non-2xx status, and a body
   whose first element is undefined or null (an empty body, an empty array, a
   JSON object, number or boolean).
   */
  datatype Outcome =
    | Response(message: string, status: string, postOffice: Option<seq<PostOffice>>)
    | TransportFailure

  const SuccessStatus := "Success"

  /**
   The branch condition of the lookup handler: the status is exactly "Success"
   and the list is present. A present but empty list is truthy in JavaScript,
   so it also takes this branch.
   */
  predicate Succeeded(o: Outcome)
    ensures Succeeded(o) ==> o.Response? && o.postOffice.Some?
    ensures o.Response? && o.status == "Success" && o.postOffice == Some([]) ==> Succeeded(o)
    ensures o.Response? && o.status == "success" ==> !Succeeded(o)
  {
    o.Response? && o.status == SuccessStatus && o.postOffice.Some?
  }
}
