/** Resolution of reported outcomes (genai/outcome.go). */
module Outcome {
  import opened Bytes

  const OK: Bytes := "ok"
  const ERROR: Bytes := "error"
  const UNSET: Bytes := "unset"
  const STATUSES: set<Bytes> := {OK, ERROR, UNSET}
  const UNKNOWN: Bytes := "unknown"

  const MODEL_ERRORS: set<Bytes> := {
    "unknown", "error", "cancelled", "deadline_exceeded", "stream_aborted", "timeout", "rate_limit",
    "quota_exceeded", "validation", "unavailable", "permission_denied", "unauthenticated", "not_found",
    "conflict", "internal"}

  /** Success is only ever reported, never inferred; an error is never recorded as anything else. */
  function ResolveOutcome(status: Bytes, hasError: bool): (r: Option<Bytes>)
    ensures r == Some(OK) <==> status == OK && !hasError
    ensures r == Some(ERROR) <==> status == ERROR || (status == "" && hasError)
    ensures r == Some(UNSET) <==> status in {"", UNSET} && !hasError
    ensures r.Some? ==> r.value in STATUSES
    ensures hasError && r.Some? ==> r.value == ERROR
  {
    if status == "" then Some(if hasError then ERROR else UNSET)
    else if status == OK || status == UNSET then if hasError then None else Some(status)
    else if status == ERROR then Some(ERROR)
    else None
  }

  datatype Resolution = Invalid | Panic | Resolved(status: Bytes, errorClass: Bytes)

  /** A class accompanies exactly the error outcome. */
  function ResolveModelOutcome(status: Bytes, errorType: Bytes): (r: Resolution)
    ensures r != Panic
    ensures r.Resolved? ==> r.status in STATUSES && (r.errorClass != "" <==> r.status == ERROR)
    ensures r.Resolved? && r.errorClass != "" ==> r.errorClass in MODEL_ERRORS
    ensures r.Resolved? && errorType != "" ==> r == Resolved(ERROR, errorType)
    ensures r.Resolved? <==>
              || (errorType == "" && status in {"", OK, ERROR, UNSET})
              || (errorType in MODEL_ERRORS && status in {"", ERROR})
    ensures r == Resolved(OK, "") <==> status == OK && errorType == ""
    ensures r == Resolved(UNSET, "") <==> status in {"", UNSET} && errorType == ""
    ensures errorType == "" && status == ERROR ==> r == Resolved(ERROR, UNKNOWN)
  {
    if errorType != "" && errorType !in MODEL_ERRORS then Invalid
    else
      match ResolveOutcome(status, errorType != "")
      case None => Invalid
      case Some(resolved) => Resolved(resolved, if resolved == ERROR && errorType == "" then UNKNOWN else errorType)
  }

  /** A caller's error with the host classifier's answer to it, already reduced to a bounded text. */
  datatype Failure = NoFailure | Failed(text: Bytes) | ClassifierPanics

  const DEFAULT_CLASSES: set<Bytes> := {UNKNOWN, "cancelled", "deadline_exceeded", "paused", "stream_aborted"}

  /** The classes errors are mapped to: the host's, or the library's when it names none. */
  function Classes(allowed: set<Bytes>): set<Bytes> { if allowed == {} then DEFAULT_CLASSES else allowed }

  function NormalizeErrorClass(allowed: set<Bytes>, text: Bytes): Bytes
  {
    if text == "" || text in Classes(allowed) then text else UNKNOWN
  }

  /** The classifier runs only for an error without an explicit class, once the status is accepted. */
  function ResolveToolOutcome(allowed: set<Bytes>, status: Bytes, failure: Failure, explicit: Bytes): (r: Resolution)
    ensures r.Resolved? ==> r.status in STATUSES && (r.errorClass != "" <==> r.status == ERROR)
    ensures r.Resolved? ==> r.errorClass in Classes(allowed) + {UNKNOWN, ""}
    ensures r == Panic <==> failure == ClassifierPanics && explicit == "" && status in {"", ERROR}
    ensures r.Resolved? && explicit != "" ==> r == Resolved(ERROR, explicit) && explicit in allowed
    ensures r == Invalid <==>
              || (explicit != "" && explicit !in allowed) || status !in {"", OK, ERROR, UNSET}
              || (status in {OK, UNSET} && (failure != NoFailure || explicit != ""))
    ensures r == Resolved(OK, "") <==> status == OK && failure == NoFailure && explicit == ""
    ensures r == Resolved(UNSET, "") <==> status in {"", UNSET} && failure == NoFailure && explicit == ""
    ensures r.Resolved? && r.status == ERROR && explicit == "" ==>
              r.errorClass ==
                if failure.Failed? && failure.text != "" && failure.text in Classes(allowed) then failure.text
                else UNKNOWN
  {
    if explicit != "" && explicit !in allowed then Invalid
    else
      match ResolveOutcome(status, failure != NoFailure || explicit != "")
      case None => Invalid
      case Some(resolved) =>
        if resolved != ERROR then Resolved(resolved, "")
        else if explicit == "" && failure == ClassifierPanics then Panic
        else
          var errorClass := if explicit == "" && failure.Failed? then NormalizeErrorClass(allowed, failure.text)
            else explicit;
          Resolved(ERROR, if errorClass == "" then UNKNOWN else errorClass)
  }
}
