/** The two catch-all middlewares at the end of the Express pipeline: the 404
    fallback for unmatched routes and the error handler that turns any thrown
    error into a status and a JSON body. */
module ExpressErrors {
  import opened Util
  import opened Errors

  /** The JSON error body (`success` is always false, so it is left implicit)
      and the status the handler sets. `errorFields` is None when the body has
      no such key. The status is None only when the handler passes on an
      undefined `err.status`. */
  datatype HttpResponse = HttpResponse(status: Option<int>, error: string, errorFields: Option<seq<FieldError>>)

  datatype FieldError = FieldError(field: string, message: string)

  /** The error the fallback middleware passes on for a request no route matched. */
  function NotFound(): (e: ErrorRecord)
    ensures e.status == Some(404) && e.message == "Not Found"
    ensures e.response.None? && e.code.None? && e.field == ""
  {
    ErrorRecord("Error", "Not Found", Some(404), None, "", None, None)
  }

  /** JavaScript's `status || fallback` on a number that may be undefined (0 is falsy). */
  function StatusOr(status: Option<int>, fallback: int): (r: int)
    ensures status.Some? && status.value != 0 ==> r == status.value
    ensures status.None? || status.value == 0 ==> r == fallback
  {
    if status.Some? && status.value != 0 then status.value else fallback
  }

  function DuplicateMessage(fieldText: string): string {
    "An account with that " + fieldText + " already exists."
  }

  function DuplicateFields(keys: seq<string>): (r: seq<FieldError>)
    ensures |r| == |keys|
    ensures forall i :: 0 <= i < |keys| ==> r[i] == FieldError(keys[i], DuplicateMessage(keys[i]))
  {
    seq(|keys|, i requires 0 <= i < |keys| => FieldError(keys[i], DuplicateMessage(keys[i])))
  }

  /** The branches of the handler, tried in this order; the first that applies decides. */
  datatype Branch =
    | DataMessage | DataName | DataText | DataError | BodyErrors
    | Unauthorized | DuplicateKey | Default

  function Classify(err: ErrorRecord): (b: Branch)
    ensures b == DataMessage <==> err.response.Some? && err.response.value.dataMessage != ""
    ensures b == Default ==> err.response.None? || err.response.value.bodyErrors == []
                             || err.response.value.bodyErrors[0] == ""
    ensures b == Default ==> err.name != "UnauthorizedError" && err.code != Some(11000)
    ensures b == DuplicateKey ==> err.code == Some(11000) && err.name != "UnauthorizedError"
    ensures b == Default && err.response.Some? ==>
              err.response.value.dataName.None? && err.response.value.dataText.None?
              && err.response.value.dataError == ""
    ensures err.response.None? ==>
              b == (if err.name == "UnauthorizedError" then Unauthorized
                    else if err.code == Some(11000) then DuplicateKey
                    else Default)
  {
    if err.response.Some? && err.response.value.dataMessage != "" then DataMessage
    else if err.response.Some? && err.response.value.dataName.Some? then DataName
    else if err.response.Some? && err.response.value.dataText.Some? then DataText
    else if err.response.Some? && err.response.value.dataError != "" then DataError
    else if err.response.Some? && |err.response.value.bodyErrors| > 0
            && err.response.value.bodyErrors[0] != "" then BodyErrors
    else if err.name == "UnauthorizedError" then Unauthorized
    else if err.code == Some(11000) then DuplicateKey
    else Default
  }

  /** The error-handling middleware: the response for a thrown error. */
  function HandleError(err: ErrorRecord): (r: HttpResponse)
    ensures Classify(err) in {DataMessage, DataName, DataText, DataError} ==>
              r.status == Some(err.response.value.status) && r.errorFields.None?
    ensures Classify(err) == DataMessage ==> r.error == err.response.value.dataMessage
    ensures Classify(err) == DataName ==> r.error == Join(err.response.value.dataName.value, ", ")
    ensures Classify(err) == DataText ==> r.error == Join(err.response.value.dataText.value, ", ")
    ensures Classify(err) == DataError ==> r.error == err.response.value.dataError
    ensures Classify(err) == BodyErrors ==>
              r == HttpResponse(Some(StatusOr(err.status, StatusOr(err.code, 500))),
                                err.response.value.bodyErrors[0], None)
    ensures Classify(err) == Unauthorized ==> r == HttpResponse(err.status, err.message, None)
    ensures Classify(err) == DuplicateKey ==> r.status == Some(409) && r.errorFields.Some?
    ensures Classify(err) == DuplicateKey && err.keyValue.Some? ==>
              r.error == DuplicateMessage(Join(err.keyValue.value, ","))
              && r.errorFields == Some(DuplicateFields(err.keyValue.value))
    ensures Classify(err) == DuplicateKey && err.keyValue.None? ==>
              r.error == "Duplicate field error" && r.errorFields == Some([])
    ensures Classify(err) == Default ==>
              r.status == Some(StatusOr(err.status, 500)) && r.error == err.message
    ensures Classify(err) == Default && err.field != "" ==>
              r.errorFields == Some([FieldError(err.field, err.message)])
    ensures Classify(err) == Default && err.field == "" ==> r.errorFields.None?
  {
    match Classify(err)
    case DataMessage =>
      HttpResponse(Some(err.response.value.status), err.response.value.dataMessage, None)
    case DataName =>
      HttpResponse(Some(err.response.value.status), Join(err.response.value.dataName.value, ", "), None)
    case DataText =>
      HttpResponse(Some(err.response.value.status), Join(err.response.value.dataText.value, ", "), None)
    case DataError =>
      HttpResponse(Some(err.response.value.status), err.response.value.dataError, None)
    case BodyErrors =>
      HttpResponse(Some(StatusOr(err.status, StatusOr(err.code, 500))), err.response.value.bodyErrors[0], None)
    case Unauthorized =>
      HttpResponse(err.status, err.message, None)
    case DuplicateKey =>
      if err.keyValue.Some? then
        HttpResponse(Some(409), DuplicateMessage(Join(err.keyValue.value, ",")), Some(DuplicateFields(err.keyValue.value)))
      else
        HttpResponse(Some(409), "Duplicate field error", Some([]))
    case Default =>
      HttpResponse(Some(StatusOr(err.status, 500)), err.message,
                   if err.field != "" then Some([FieldError(err.field, err.message)]) else None)
  }

  /** An unmatched route is answered 404 "Not Found", with no field list. */
  lemma NotFoundResponse()
    ensures HandleError(NotFound()) == HttpResponse(Some(404), "Not Found", None)
  {
  }

  /** Every `ErrorResponse` a service throws reaches the last branch: its status
      (500 when it has none), its message, and a one-entry field list exactly
      when it names a field. */
  lemma ErrorResponseAnswer(message: string, status: Option<int>, field: string)
    ensures HandleError(ErrorResponse(message, status, field))
         == HttpResponse(Some(StatusOr(status, 500)), message,
                         if field != "" then Some([FieldError(field, message)]) else None)
  {
  }

  /** A duplicate-key error on one key is a 409 naming that key once. */
  lemma DuplicateKeyAnswer(key: string)
    ensures HandleError(DuplicateKeyError([key]))
         == HttpResponse(Some(409), DuplicateMessage(key), Some([FieldError(key, DuplicateMessage(key))]))
  {
    assert Join([key], ",") == key;
    assert DuplicateFields([key]) == [FieldError(key, DuplicateMessage(key))];
  }

  /** A duplicate-key error without `keyValue` is the generic 409. */
  lemma DuplicateWithoutKeys(err: ErrorRecord)
    requires err.response.None? && err.name != "UnauthorizedError"
    requires err.code == Some(11000) && err.keyValue.None?
    ensures HandleError(err) == HttpResponse(Some(409), "Duplicate field error", Some([]))
  {
  }

  /** When the upstream response carries `data.message`, nothing else about the
      error matters. */
  lemma DataMessageDecides(err: ErrorRecord, other: ErrorRecord)
    requires err.response.Some? && err.response.value.dataMessage != ""
    requires other.response.Some? && other.response.value.status == err.response.value.status
    requires other.response.value.dataMessage == err.response.value.dataMessage
    ensures HandleError(other) == HandleError(err)
  {
  }
}
