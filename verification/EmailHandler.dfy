/**
  * One delivery of an EMAIL job: the handler reads the audit row, calls the mail backend and writes
  * the outcome.  Every call to the database or the backend may fail, and the worker may be killed.
  */
module EmailHandler {
  import opened Wrappers

  datatype Status = Queued | Sent | Failed

  datatype AuditRow = AuditRow(
    toAddress: string,
    status: Status,
    backendName: string,
    providerMessageId: Option<string>,
    errorMessage: Option<string>)

  /** `complete` says whether the keys that build_message_from_payload indexes are all present. */
  datatype Payload = Payload(auditId: Option<string>, complete: bool)

  datatype Job = Job(payload: Payload, attempts: nat, maxAttempts: nat)

  datatype SendOutcome =
    | Accepted(backendName: string, providerMessageId: Option<string>)  // SendStatus.SENT
    | Refused(backendName: string, message: string)                     // SendStatus.FAILED
    | Threw(transport: bool, message: string)                           // any exception

  /** A commit may be lost, or be applied by the server although the client saw an error. */
  datatype WriteOutcome = Committed | Lost | AppliedButRaised

  datatype KillPoint = NoKill | KillBeforeSend | KillAfterSend | KillAfterWrite

  /** Everything the environment decides during one delivery.  `ackOk` and `rejectOk` say whether the
    * queue carries out an acknowledge or a reject. */
  datatype Env = Env(
    backendName: string,
    backendOk: bool,
    readOk: bool,
    send: SendOutcome,
    write: WriteOutcome,
    kill: KillPoint,
    ackOk: bool,
    rejectOk: bool)

  datatype Error =
    | MissingAuditId
    | BackendUnavailable
    | IncompletePayload
    | ReadFailed
    | NotYetVisible
    | SendRaised(transport: bool, message: string)
    | WriteRaised

  datatype Outcome = Returned | Raised(error: Error) | Killed

  /** One call to the backend: whose audit row it was for and what came back. */
  datatype Attempt = Attempt(auditId: string, outcome: SendOutcome)

  datatype World = World(rows: map<string, AuditRow>, sends: seq<Attempt>)

  // ---------------------------------------------------------------- one delivery

  const MAX_ERROR_LENGTH := 2000

  function Truncated(message: string): string {
    if |message| <= MAX_ERROR_LENGTH then message else message[..MAX_ERROR_LENGTH]
  }

  /** UPDATE email_send_log SET ... WHERE id = id: touches nothing when the row is absent. */
  function Updated(rows: map<string, AuditRow>, id: string, status: Status, backendName: string,
                   providerMessageId: Option<string>, errorMessage: Option<string>): map<string, AuditRow>
  {
    if id !in rows then rows else
    var row := rows[id];
    if status == Sent then
      rows[id := row.(status := Sent, backendName := backendName, providerMessageId := providerMessageId)]
    else
      rows[id := row.(status := status, backendName := backendName, errorMessage := errorMessage)]
  }

  function MarkedSent(rows: map<string, AuditRow>, id: string, send: SendOutcome): map<string, AuditRow>
    requires send.Accepted?
  {
    Updated(rows, id, Sent, send.backendName, send.providerMessageId, None)
  }

  function MarkedFailed(rows: map<string, AuditRow>, id: string, backendName: string, message: string)
    : map<string, AuditRow>
  {
    Updated(rows, id, Failed, backendName, None, Some(Truncated(message)))
  }

  /** The rows the session of this delivery is about to commit, if it writes at all. */
  function PendingRows(job: Job, env: Env, rows: map<string, AuditRow>, id: string): map<string, AuditRow> {
    match env.send
    case Accepted(_, _) => MarkedSent(rows, id, env.send)
    case Refused(name, message) =>
      MarkedFailed(rows, id, name, if message == "" then "unknown error" else message)
    case Threw(_, message) =>
      if job.attempts >= job.maxAttempts
      then MarkedFailed(rows, id, env.backendName, "max retries exceeded: " + message)
      else rows
  }

  /** Whether this delivery gets as far as calling the backend. */
  predicate ReachesSend(job: Job, env: Env, rows: map<string, AuditRow>) {
    && job.payload.auditId.Some? && job.payload.auditId.value != ""
    && env.backendOk && job.payload.complete && env.readOk
    && job.payload.auditId.value in rows
    && rows[job.payload.auditId.value].status == Queued
    && env.kill != KillBeforeSend
  }

  /** What a delivery that does not reach the backend ends with. */
  function EarlyExit(job: Job, env: Env, rows: map<string, AuditRow>): Outcome {
    if job.payload.auditId.None? || job.payload.auditId.value == "" then Raised(MissingAuditId)
    else if env.kill == KillBeforeSend then Killed
    else if !env.backendOk then Raised(BackendUnavailable)
    else if !job.payload.complete then Raised(IncompletePayload)
    else if !env.readOk then Raised(ReadFailed)
    else if job.payload.auditId.value !in rows then Raised(NotYetVisible)
    else Returned
  }

  /** The specification of one delivery. */
  function Handle(job: Job, env: Env, w: World): (Outcome, World) {
    if !ReachesSend(job, env, w.rows) then (EarlyExit(job, env, w.rows), w)
    else
      var id := job.payload.auditId.value;
      var sends := w.sends + [Attempt(id, env.send)];
      if env.kill == KillAfterSend then (Killed, World(w.rows, sends))
      else
        var rows := if env.write == Lost then w.rows else PendingRows(job, env, w.rows, id);
        var ending :=
          if env.kill == KillAfterWrite then Killed
          else if env.send.Threw? then Raised(SendRaised(env.send.transport, env.send.message))
          else if env.write == Committed then Returned
          else Raised(WriteRaised);
        (ending, World(rows, sends))
  }

  class AuditLog {
    var rows: map<string, AuditRow>

    constructor ()
      ensures rows == map[]
    {
      rows := map[];
    }

    /** session.commit(): installs the pending rows unless the commit is lost. */
    method Commit(pending: map<string, AuditRow>, write: WriteOutcome) returns (raised: bool)
      modifies this
      ensures rows == if write == Lost then old(rows) else pending
      ensures raised <==> write != Committed
    {
      if write != Lost {
        rows := pending;
      }
      raised := write != Committed;
    }
  }

  class MailBackend {
    var sends: seq<Attempt>

    constructor ()
      ensures sends == []
    {
      sends := [];
    }

    method SendEmail(auditId: string, outcome: SendOutcome) returns (result: SendOutcome)
      modifies this
      ensures sends == old(sends) + [Attempt(auditId, outcome)]
      ensures result == outcome
    {
      sends := sends + [Attempt(auditId, outcome)];
      result := outcome;
    }
  }

  method HandleEmailJob(job: Job, env: Env, log: AuditLog, backend: MailBackend) returns (out: Outcome)
    modifies log, backend
    ensures (out, World(log.rows, backend.sends)) == Handle(job, env, World(old(log.rows), old(backend.sends)))
  {
    if job.payload.auditId.None? || job.payload.auditId.value == "" {
      return Raised(MissingAuditId);
    }
    var auditId := job.payload.auditId.value;
    if env.kill == KillBeforeSend { return Killed; }
    if !env.backendOk { return Raised(BackendUnavailable); }
    if !job.payload.complete { return Raised(IncompletePayload); }
    if !env.readOk { return Raised(ReadFailed); }
    if auditId !in log.rows { return Raised(NotYetVisible); }
    if log.rows[auditId].status in {Sent, Failed} { return Returned; }

    var result := backend.SendEmail(auditId, env.send);
    if env.kill == KillAfterSend { return Killed; }
    if result.Threw? {
      if job.attempts >= job.maxAttempts {
        var pending := MarkedFailed(log.rows, auditId, env.backendName, "max retries exceeded: " + result.message);
        var swallowed := log.Commit(pending, env.write);
      }
      if env.kill == KillAfterWrite { return Killed; }
      return Raised(SendRaised(result.transport, result.message));
    }
    var pending;
    if result.Accepted? {
      pending := MarkedSent(log.rows, auditId, result);
    } else {
      pending := MarkedFailed(log.rows, auditId, result.backendName,
                              if result.message == "" then "unknown error" else result.message);
    }
    var raised := log.Commit(pending, env.write);
    if env.kill == KillAfterWrite { return Killed; }
    return if raised then Raised(WriteRaised) else Returned;
  }

  /** A failed terminal write never hides the exception of the send itself. */
  lemma TransportErrorSurvives(job: Job, env: Env, w: World)
    requires ReachesSend(job, env, w.rows) && env.send.Threw?
    requires env.kill == NoKill
    ensures Handle(job, env, w).0 == Raised(SendRaised(env.send.transport, env.send.message))
    ensures Handle(job, env, w).1.rows != w.rows ==> job.attempts >= job.maxAttempts && env.write != Lost
  {
  }

  /** Whether this delivery changes the row with this id. */
  predicate Writes(job: Job, env: Env, rows: map<string, AuditRow>, id: string) {
    && job.payload.auditId == Some(id) && id != ""
    && env.backendOk && job.payload.complete && env.readOk
    && id in rows && rows[id].status == Queued
    && env.kill != KillBeforeSend && env.kill != KillAfterSend && env.write != Lost
    && (env.send.Threw? ==> job.attempts >= job.maxAttempts)
  }

  /** The text as it stands in the column: its first 2000 characters. */
  predicate CutTo2000(stored: Option<string>, text: string) {
    stored.Some? && stored.value <= text && |stored.value| == if |text| < 2000 then |text| else 2000
  }

  /** What the row says of a send: who carried it, under which id, or why it failed. */
  predicate Tells(row: AuditRow, before: AuditRow, env: Env) {
    && row.toAddress == before.toAddress
    && match env.send
       case Accepted(name, id) =>
         row.status == Sent && row.backendName == name && row.providerMessageId == id && row.errorMessage == before.errorMessage
       case Refused(name, message) =>
         && row.status == Failed && row.backendName == name && row.providerMessageId == before.providerMessageId
         && CutTo2000(row.errorMessage, if message == "" then "unknown error" else message)
       case Threw(_, message) =>
         && row.status == Failed && row.backendName == env.backendName && row.providerMessageId == before.providerMessageId
         && CutTo2000(row.errorMessage, "max retries exceeded: " + message)
  }

  /** No delivery adds or removes rows; the row it writes tells how the send went, and every other row
    * stays as it was. */
  lemma RowAfterDelivery(job: Job, env: Env, w: World, id: string)
    ensures var after := Handle(job, env, w).1.rows;
      && after.Keys == w.rows.Keys
      && (id in after ==> if Writes(job, env, w.rows, id) then Tells(after[id], w.rows[id], env) else after[id] == w.rows[id])
  {
  }

  /** The backend is called at most once, for the job's own row, and only while that is queued; a
    * delivery that returns leaves that row sent or failed. */
  lemma DeliveryCallsOnce(job: Job, env: Env, w: World)
    ensures var (ending, after) := Handle(job, env, w);
      && (after.sends != w.sends <==> ReachesSend(job, env, w.rows))
      && (after.sends != w.sends ==>
            job.payload.auditId.Some? && after.sends == w.sends + [Attempt(job.payload.auditId.value, env.send)])
      && (ending == Returned ==>
            && job.payload.auditId.Some? && job.payload.auditId.value in after.rows
            && after.rows[job.payload.auditId.value].status != Queued)
      && (ending == Raised(NotYetVisible) ==>
            job.payload.auditId.Some? && job.payload.auditId.value !in w.rows && after == w)
  {
    assert |w.sends + [Attempt("", env.send)]| != |w.sends|;
  }
}
