/**
 The idempotent command boundary: requests, results and the store that remembers one result per key.
 The store file is read and replaced under a lock file that is created exclusively.
 */
module Commands {
  import opened Wrappers

  const VERSION_UNAVAILABLE := "command_version_unavailable"
  const OUTCOME_UNKNOWN := "command_outcome_unknown"

  datatype Status = Accepted | Rejected | Failed

  datatype CommandError = CommandError(code: string, retryable: bool)

  datatype CommandResult = CommandResult(
    status: Status, commandId: string, requestId: string, error: Option<CommandError>,
    auditRef: Option<string>, traceId: Option<string>, eventRefs: seq<string>, refreshId: Option<string>)
  {
    predicate HasCode(code: string) {
      error.Some? && error.value.code == code
    }
  }

  /** `key` and `fingerprint` are the ones the boundary derives from the request. */
  datatype Request = Request(commandId: string, requestId: string, key: string, fingerprint: string)

  datatype StoreRecord = Reserved(fingerprint: string) | Completed(fingerprint: string, result: CommandResult)

  datatype ReserveOutcome = Acquired | Conflict | Pending | Replayed(result: CommandResult)

  datatype StoreError = Busy | MissingOrConflicting | CompletedConflict | ReleaseConflict

  type StoreRecords = map<string, StoreRecord>

  /** What each store operation makes of the records it has read. */
  function Reserve(records: StoreRecords, key: string, fingerprint: string): (StoreRecords, ReserveOutcome) {
    if key !in records then (records[key := Reserved(fingerprint)], Acquired)
    else if records[key].fingerprint != fingerprint then (records, Conflict)
    else if records[key].Completed? then (records, Replayed(records[key].result))
    else (records, Pending)
  }

  function Complete(records: StoreRecords, key: string, fingerprint: string, result: CommandResult)
    : (StoreRecords, Result<(), StoreError>)
  {
    if key !in records || records[key].fingerprint != fingerprint then (records, Failure(MissingOrConflicting))
    else if records[key].Reserved? then (records[key := Completed(fingerprint, result)], Success(()))
    else if records[key].result != result then (records, Failure(CompletedConflict))
    else (records, Success(()))
  }

  function Release(records: StoreRecords, key: string, fingerprint: string)
    : (StoreRecords, Result<(), StoreError>)
  {
    if key !in records then (records, Success(()))
    else if records[key] != Reserved(fingerprint) then (records, Failure(ReleaseConflict))
    else (records - {key}, Success(()))
  }

  // ----- Results -----

  function Refusal(request: Request, status: Status, code: string, retryable: bool): CommandResult {
    CommandResult(status, request.commandId, request.requestId, Some(CommandError(code, retryable)), None, None, [],
                  None)
  }

  function ConflictResult(request: Request): CommandResult {
    Refusal(request, Rejected, "idempotency_conflict", false)
  }

  function UnknownResult(request: Request, trace: Option<string>, refs: seq<string>): CommandResult {
    Refusal(request, Failed, OUTCOME_UNKNOWN, false).(traceId := trace, eventRefs := refs)
  }

  datatype Version = Unreadable | Differs | Matches

  /** How the handler ended: an unexpected exception, a rejection, or a domain result. */
  datatype Handled =
    | Raised
    | RejectedWith(error: CommandError)
    | Refused(status: Status, refusal: CommandError, refusedAudit: Option<string>, refusedRefs: seq<string>)
    | Handled(audit: Option<string>, refs: seq<string>)

  /** The projection refresh that follows an accepted command. */
  datatype Refresh = NotScheduled | Scheduled(id: string) | RefreshFailed

  /** The world as one call finds it: the target's version, what the handler does, and the new trace id. */
  datatype Environment = Environment(version: Version, handled: Handled, refresh: Refresh, trace: string)

  function HandlerResult(request: Request, env: Environment): CommandResult {
    var trace := Some(env.trace);
    match env.handled
    case RejectedWith(error) => Refusal(request, Rejected, error.code, error.retryable)
    case Raised => UnknownResult(request, trace, [])
    case Refused(status, error, audit, refs) =>
      CommandResult(status, request.commandId, request.requestId, Some(error), audit, trace, refs, None)
    case Handled(audit, refs) =>
      match env.refresh
      case RefreshFailed => UnknownResult(request, trace, refs)
      case NotScheduled =>
        CommandResult(Accepted, request.commandId, request.requestId, None, audit, trace, refs, None)
      case Scheduled(id) =>
        if id == "" then UnknownResult(request, trace, refs)
        else CommandResult(Accepted, request.commandId, request.requestId, None, audit, trace, refs, Some(id))
  }

  /** The error code the handler itself chose, if it chose one. */
  function HandlerCode(handled: Handled): Option<string> {
    match handled
    case RejectedWith(error) => Some(error.code)
    case Refused(_, error, _, _) => Some(error.code)
    case _ => None
  }
}
