/**
 * What the polling bot receives from the marketplace, with the HTTP clients
 * (aiohttp sessions, requests) replaced by the outcome they hand back.
 *
 * A request either raises one of the client's exception classes before a
 * response is available, or delivers a response with a status and a body.
 * Whether the status is an error (what `raise_for_status` would reject) is
 * given as a flag; what the body decodes to is given as a `Body`.
 */
module Http {

  datatype Option<+T> = None | Some(value: T)

  /** Outcome of one GET request. */
  datatype Transport<+T> =
    | Delivered(statusOk: bool, body: T)  // a response arrived; statusOk is false for a 4xx/5xx status
    | ConnErr                             // the client's connection-error class
    | Timeout                             // the client's timeout class
    | OtherErr                            // any other exception raised by the client

  /**
   * One value of the inventory mapping. `Offer` is a JSON object whose
   * "country", "price" and "count" keys may each be missing (`None`, which is
   * what `dict.get` returns); `NotObject` is a value that has no `.get`
   * (a number, a string, a list).
   */
  datatype Entry =
    | Offer(country: Option<int>, price: Option<real>, count: Option<int>)
    | NotObject

  /**
   * The decoded inventory document: a mapping whose values are listed in
   * insertion order (the order of `dict.values()`), or a document that is not
   * a mapping and so has no `.values()`.
   */
  datatype Payload = Mapping(values: seq<Entry>) | NotMapping

  /**
   * What the body of an inventory response turns out to be.
   * `Json` — its text decodes to a document; `labelled` says whether it is
   *          served with a JSON content type (aiohttp's `response.json()`
   *          refuses any other);
   * `NotJson` — it is not served as JSON and its text does not parse;
   * `BadJson` — it is served as JSON but does not decode.
   */
  datatype Body = Json(payload: Payload, labelled: bool) | NotJson(text: string) | BadJson
}
