/**
 * The remote table as `syncToAppSheet` sees it: the configuration that gates a push, and the
 * classification of the remote's answer into acceptance or one of the failures the
 * function throws. The request itself (URL, headers, JSON body) is not modelled; the
 * answer is an abstract value.
 */
module Remote {
  import opened Types

  /** What `getAppSheetConfig` returns while nothing has been saved. */
  const DefaultConfig := AppSheetConfig("", "", "Records", true)

  /** Both credentials are non-empty strings, the condition `syncAllRecords` checks before pushing. */
  predicate HasCredentials(c: AppSheetConfig)
  {
    c.appId != "" && c.accessKey != ""
  }

  /** The condition under which `addRecord` pushes a new record straight away. */
  predicate AutoPushEnabled(c: AppSheetConfig)
  {
    c.isEnabled && HasCredentials(c)
  }

  /** Out of the box the store never pushes, although `isEnabled` is set, for want of credentials. */
  lemma DefaultConfigNeverPushes()
    ensures DefaultConfig.isEnabled && !AutoPushEnabled(DefaultConfig) && !HasCredentials(DefaultConfig)
  {
  }

  /** The decoded body of a reply, reduced to what the checks in `syncToAppSheet` look at. */
  datatype Body =
    | Unparseable                                   // `response.json()` rejects the body
    | Scalar                                        // null, a number, a string or a boolean
    | JsonObject(restApiResponse: bool, error: bool) // truthiness of the two error fields
    | JsonArray(length: nat)

  /** The remote's answer to one push: no reply at all, or a status and a body. */
  datatype Response = NetworkFailure | Reply(ok: bool, status: int, body: Body)

  /** The failures `syncToAppSheet` throws, in the order it checks for them. */
  datatype PushFailure = Transport | BadJson | HttpError(status: int) | ApiError | EmptyList

  datatype PushOutcome = Accepted | Rejected(reason: PushFailure)

  /**
   * Whether a push answered by `resp` succeeds. The body is decoded before the status is
   * looked at, so an undecodable body fails even on an OK status; then a non-OK status
   * fails; then an object whose `RestApiResponse` or `Error` field is truthy; then an
   * empty array. Every other answer, including an OK object without error fields, a
   * non-empty array, null or a plain value, is a success.
   */
  function Classify(resp: Response): (out: PushOutcome)
    ensures resp.NetworkFailure? ==> out == Rejected(Transport)
    ensures resp.Reply? && resp.body.Unparseable? ==> out == Rejected(BadJson)
    ensures resp.Reply? && !resp.body.Unparseable? && !resp.ok ==> out == Rejected(HttpError(resp.status))
    ensures resp.Reply? && resp.ok && resp.body.JsonObject? ==>
      (out == Rejected(ApiError) <==> resp.body.restApiResponse || resp.body.error)
    ensures resp.Reply? && resp.ok && resp.body.JsonArray? ==> (out == Rejected(EmptyList) <==> resp.body.length == 0)
    ensures out.Accepted? <==> resp.Reply? && resp.ok && match resp.body
      case Unparseable => false
      case Scalar => true
      case JsonObject(r, e) => !r && !e
      case JsonArray(n) => n > 0
  {
    match resp
    case NetworkFailure => Rejected(Transport)
    case Reply(ok, status, body) =>
      if body.Unparseable? then Rejected(BadJson)
      else if !ok then Rejected(HttpError(status))
      else if body.JsonObject? && (body.restApiResponse || body.error) then Rejected(ApiError)
      else if body.JsonArray? && body.length == 0 then Rejected(EmptyList)
      else Accepted
  }

  /** An OK reply carrying the added rows: a non-empty array. */
  predicate ReturnsAddedRows(resp: Response)
  {
    resp.Reply? && resp.ok && resp.body.JsonArray? && resp.body.length > 0
  }

  /** Every reply carrying the added rows is accepted. */
  lemma ReturnsAddedRowsAccepted(resp: Response)
    requires ReturnsAddedRows(resp)
    ensures Classify(resp) == Accepted
  {
  }

  /** The converse fails: an OK object with no error field is accepted though it carries no rows. */
  lemma AcceptsWithoutAddedRows()
    ensures var resp := Reply(true, 200, JsonObject(false, false));
      Classify(resp) == Accepted && !ReturnsAddedRows(resp)
  {
  }

  /**
   * The request body for `r` can be built: it calls `toFixed(2)` on the posture rate, which
   * works on any number, infinities and `NaN` included, but throws on the `null` a stored
   * non-finite rate has become. The throw comes before the request is sent.
   */
  predicate RowBuildable(r: EggRecord)
  {
    !r.postureRate.JsonNull?
  }

  /** `syncToAppSheet(r)` returns normally when answered by `resp`: the row is sent and the answer accepted. */
  predicate PushSucceeds(r: EggRecord, resp: Response)
  {
    RowBuildable(r) && Classify(resp).Accepted?
  }
}
