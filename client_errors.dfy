/**
 * The rejected request as the front-end `catch` handlers see it: the
 * status and body of the HTTP response, if one arrived, and the
 * transport's own message.
 */
module ClientErrors {
  import opened Wrappers
  import opened Text
  import UserControllers

  /** `error.response?.status`, `error.response?.data?.message`, `error.response?.data?.error` and `error.message`. */
  datatype HttpError = HttpError(status: Option<int>, dataMessage: Option<string>, dataError: Option<string>, message: Option<string>)

  /** JavaScript truthiness of an optional string. */
  predicate Truthy(o: Option<string>) {
    o.Some? && o.value != ""
  }

  /** `data.message || data.error || error.message || fallback` */
  function BaseMessage(e: HttpError, fallback: string): (r: string)
    ensures fallback != "" ==> r != ""
    ensures Truthy(e.dataMessage) ==> r == e.dataMessage.value
    ensures !Truthy(e.dataMessage) && !Truthy(e.dataError) && !Truthy(e.message) ==> r == fallback
  {
    if Truthy(e.dataMessage) then e.dataMessage.value
    else if Truthy(e.dataError) then e.dataError.value
    else if Truthy(e.message) then e.message.value
    else fallback
  }

  /** `status === n`: an absent status equals no number. */
  predicate StatusIs(e: HttpError, n: int) {
    e.status == Some(n)
  }

  /** `status >= 500`: an absent status (`undefined`) compares false. */
  predicate ServerStatus(e: HttpError) {
    e.status.Some? && e.status.value >= 500
  }

  /** The error the client sees for a refusal of the backend, which answers with the status and message of the `ApiError`. */
  function FromApiError(err: UserControllers.ApiError): (e: HttpError)
    ensures StatusIs(e, err.status)
    ensures ServerStatus(e) <==> err.status >= 500
    ensures err.message != "" ==> Truthy(e.dataMessage) && e.dataMessage.value == err.message
  {
    HttpError(Some(err.status), Some(err.message), None, None)
  }
}
