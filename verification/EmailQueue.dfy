/**
  * The EMAIL job in its queue: the producer's transaction, the worker loop around the handler, and
  * the queue's own bookkeeping, in which an unsettled job comes back after a timeout, may come back
  * twice, and may vanish.  Deliveries of one job happen one at a time.
  */
module EmailQueue {
  import opened Wrappers
  import opened EmailHandler

  datatype Producer = InFlight | Done | RolledBack

  /** A copy of the job waits in the list, or in the processing set for its visibility timeout. */
  datatype Place = Listed | Processing

  datatype Copy = Copy(attempts: nat, place: Place)

  /** What the last delivery did, kept as history: the attempt it was, the row status it started from,
    * whether it called the backend, and how it ended. */
  datatype Delivery =
    | NoDelivery
    | Delivery(env: Env, attempts: nat, before: Option<Status>, called: bool, outcome: Outcome)

  /** How the last copy that left the queue left it. */
  datatype Ending = Running | Acknowledged | GivenUp | Vanished

  /** `lost` counts deliveries that ended with neither an acknowledge nor a reject, `duplicated`
    * restores that put a job back without removing it from the processing set. */
  datatype System = System(
    world: World,
    producer: Producer,
    payload: Payload,
    maxAttempts: nat,
    copies: seq<Copy>,
    lost: nat,
    duplicated: nat,
    ending: Ending,
    last: Delivery)

  /** The steps name a copy by its position.  A dequeue that fails after it has stored the job uses up
    * an attempt.  A copy vanishes when a reject stops half-way, when the stored job has expired, or
    * when a dequeue fails before it has stored it. */
  datatype Step =
    | ProducerCommits
    | ProducerRollsBack
    | Deliver(copy: nat, env: Env)
    | FailedDequeue(copy: nat)
    | Duplicate(copy: nat)
    | Vanish(copy: nat)

  function StatusOf(rows: map<string, AuditRow>, id: string): Option<Status> {
    if id in rows then Some(rows[id].status) else None
  }

  function NewRow(to: string): AuditRow {
    AuditRow(to, Queued, "pending", None, None)
  }

  function Without(copies: seq<Copy>, i: nat): seq<Copy>
    requires i < |copies|
  {
    copies[..i] + copies[i + 1..]
  }

  function JobOf(s: System, i: nat): Job
    requires i < |s.copies|
  {
    Job(s.payload, s.copies[i].attempts + 1, s.maxAttempts)
  }

  /** Worker._process_job around one delivery: acknowledge, or reject with or without requeue; a raising
    * acknowledge falls into the reject path; a killed worker or a raising reject leaves the job to its
    * visibility timeout, which restores it without looking at max_attempts. */
  function Process(s: System, i: nat, env: Env): System
    requires i < |s.copies| && s.payload.auditId.Some?
  {
    var job := JobOf(s, i);
    var (outcome, world) := Handle(job, env, s.world);
    var others := Without(s.copies, i);
    var after := s.(world := world, copies := others,
                    last := Delivery(env, job.attempts, StatusOf(s.world.rows, job.payload.auditId.value),
                                     ReachesSend(job, env, s.world.rows), outcome));
    if outcome.Returned? && env.ackOk then after.(ending := Acknowledged)
    else if outcome.Killed? || !env.rejectOk then
      after.(copies := others + [Copy(job.attempts, Processing)], lost := s.lost + 1)
    else if job.attempts < s.maxAttempts then after.(copies := others + [Copy(job.attempts, Listed)])
    else after.(ending := GivenUp)
  }

  function Next(s: System, step: Step): System
    requires s.payload.auditId.Some?
  {
    match step
    case ProducerCommits =>
      if s.producer != InFlight then s
      else s.(producer := Done,
              world := s.world.(rows := s.world.rows[s.payload.auditId.value := NewRow("recipient")]))
    case ProducerRollsBack =>
      if s.producer != InFlight then s else s.(producer := RolledBack)
    case Deliver(i, env) =>
      if i < |s.copies| then Process(s, i, env) else s
    case FailedDequeue(i) =>
      if i < |s.copies| then
        s.(copies := Without(s.copies, i) + [Copy(s.copies[i].attempts + 1, Processing)], lost := s.lost + 1)
      else s
    case Duplicate(i) =>
      if i < |s.copies| && s.copies[i].place == Processing then
        s.(copies := s.copies + [Copy(s.copies[i].attempts, Listed)], duplicated := s.duplicated + 1)
      else s
    case Vanish(i) =>
      if i < |s.copies| then s.(copies := Without(s.copies, i), ending := Vanished) else s
  }

  function Run(s: System, steps: seq<Step>): (r: System)
    requires s.payload.auditId.Some?
    ensures r.payload == s.payload && r.maxAttempts == s.maxAttempts
    decreases |steps|
  {
    if steps == [] then s else Run(Next(s, steps[0]), steps[1..])
  }

  /** The producer has enqueued the job; its transaction is still open and the id is fresh. */
  predicate Start(s: System, id: string) {
    && s.payload.auditId == Some(id) && id != "" && id !in s.world.rows
    && s.copies == [Copy(0, Listed)] && s.world.sends == []
    && s.producer == InFlight && s.lost == 0 && s.duplicated == 0 && s.ending == Running && s.last == NoDelivery
  }

  /** No copy is left: nothing more will happen to the job. */
  predicate Over(s: System) {
    s.copies == []
  }

  function Max(a: int, b: int): int { if a < b then b else a }

  // ---------------------------------------------------------------- how many sends are left

  /** The sends a copy can still make without being lost: at least one. */
  function Weight(maxAttempts: nat, c: Copy): int {
    Max(1, Max(1, maxAttempts) - c.attempts)
  }

  function TotalWeight(maxAttempts: nat, copies: seq<Copy>): int {
    if copies == [] then 0
    else TotalWeight(maxAttempts, copies[..|copies| - 1]) + Weight(maxAttempts, copies[|copies| - 1])
  }

  lemma WeightAppend(maxAttempts: nat, copies: seq<Copy>, c: Copy)
    ensures TotalWeight(maxAttempts, copies + [c]) == TotalWeight(maxAttempts, copies) + Weight(maxAttempts, c)
  {
    assert (copies + [c])[..|copies|] == copies;
  }

  lemma {:induction false} WeightWithout(maxAttempts: nat, copies: seq<Copy>, i: nat)
    requires i < |copies|
    ensures TotalWeight(maxAttempts, Without(copies, i)) ==
            TotalWeight(maxAttempts, copies) - Weight(maxAttempts, copies[i])
    decreases |copies|
  {
    hide Weight;
    var n := |copies| - 1;
    if i < n {
      var init := copies[..n];
      assert Without(copies, i) == Without(init, i) + [copies[n]];
      WeightAppend(maxAttempts, Without(init, i), copies[n]);
      WeightWithout(maxAttempts, init, i);
    } else {
      assert Without(copies, i) == copies[..n];
    }
  }

  lemma {:induction false} WeightIsPositive(maxAttempts: nat, copies: seq<Copy>)
    ensures TotalWeight(maxAttempts, copies) >= |copies|
    decreases |copies|
  {
    if copies != [] { WeightIsPositive(maxAttempts, copies[..|copies| - 1]); }
  }

  /** What duplicates can add. */
  function Extra(duplicated: nat, maxAttempts: nat): int {
    duplicated * Max(1, maxAttempts - 1)
  }

  /** The most sends there can be. */
  function Bound(s: System): int {
    Max(1, s.maxAttempts) + s.lost + Extra(s.duplicated, s.maxAttempts)
  }

  /** Only what was delivered before is in the processing set; without a lost delivery nothing is. */
  ghost predicate Places(s: System) {
    && (forall c :: c in s.copies && c.place == Processing ==> c.attempts > 0 && s.lost > 0)
    && (s.duplicated > 0 ==> s.lost > 0)
  }

  ghost predicate Budget(s: System) {
    |s.world.sends| + TotalWeight(s.maxAttempts, s.copies) <= Bound(s) && Places(s)
  }

  lemma HandleSends(job: Job, env: Env, w: World)
    ensures |Handle(job, env, w).1.sends| <= |w.sends| + 1
  {
  }

  lemma WithoutMembers(copies: seq<Copy>, i: nat)
    requires i < |copies|
    ensures forall c :: c in Without(copies, i) ==> c in copies
  {
  }

  lemma DeliveryKeepsPlaces(s: System, i: nat, env: Env)
    requires Places(s) && s.payload.auditId.Some? && i < |s.copies|
    ensures Places(Process(s, i, env))
  {
    WithoutMembers(s.copies, i);
    hide Handle, ReachesSend, Without;
  }

  lemma DeliveryKeepsBudget(s: System, i: nat, env: Env)
    requires Budget(s) && s.payload.auditId.Some? && i < |s.copies|
    ensures Budget(Process(s, i, env))
  {
    var others, a := Without(s.copies, i), s.copies[i].attempts;
    HandleSends(JobOf(s, i), env, s.world);
    DeliveryKeepsPlaces(s, i, env);
    WeightWithout(s.maxAttempts, s.copies, i);
    WeightAppend(s.maxAttempts, others, Copy(a + 1, Processing));
    WeightAppend(s.maxAttempts, others, Copy(a + 1, Listed));
    hide Handle, ReachesSend, TotalWeight, Without, Extra, Places;
  }

  lemma FailedDequeueKeepsBudget(s: System, i: nat)
    requires Budget(s) && s.payload.auditId.Some? && i < |s.copies|
    ensures Budget(Next(s, FailedDequeue(i)))
  {
    WithoutMembers(s.copies, i);
    WeightWithout(s.maxAttempts, s.copies, i);
    WeightAppend(s.maxAttempts, Without(s.copies, i), Copy(s.copies[i].attempts + 1, Processing));
    hide Process, TotalWeight, Without, Extra;
  }

  lemma VanishKeepsBudget(s: System, i: nat)
    requires Budget(s) && s.payload.auditId.Some? && i < |s.copies|
    ensures Budget(Next(s, Vanish(i)))
  {
    WithoutMembers(s.copies, i);
    WeightWithout(s.maxAttempts, s.copies, i);
    hide Process, TotalWeight, Without, Extra;
  }

  lemma ExtraGrows(duplicated: nat, maxAttempts: nat)
    ensures Extra(duplicated + 1, maxAttempts) == Extra(duplicated, maxAttempts) + Max(1, maxAttempts - 1)
  {
  }

  lemma DuplicateKeepsBudget(s: System, i: nat)
    requires Budget(s) && s.payload.auditId.Some? && i < |s.copies| && s.copies[i].place == Processing
    ensures Budget(Next(s, Duplicate(i)))
  {
    WeightAppend(s.maxAttempts, s.copies, Copy(s.copies[i].attempts, Listed));
    ExtraGrows(s.duplicated, s.maxAttempts);
    assert s.copies[i] in s.copies;
    hide Process, TotalWeight, Without, Extra;
  }

  lemma StepKeepsBudget(s: System, step: Step)
    requires Budget(s) && s.payload.auditId.Some?
    ensures Budget(Next(s, step))
  {
    match step
    case ProducerCommits => hide TotalWeight, Process, Extra;
    case ProducerRollsBack => hide TotalWeight, Process, Extra;
    case Deliver(i, env) =>
      hide Budget, Process;
      if i < |s.copies| { DeliveryKeepsBudget(s, i, env); }
    case FailedDequeue(i) =>
      if i < |s.copies| { hide Budget; FailedDequeueKeepsBudget(s, i); }
    case Duplicate(i) =>
      if i < |s.copies| && s.copies[i].place == Processing { hide Budget; DuplicateKeepsBudget(s, i); }
    case Vanish(i) =>
      if i < |s.copies| { hide Budget; VanishKeepsBudget(s, i); }
  }

  // ---------------------------------------------------------------- what every step keeps

  function AcceptedCount(sends: seq<Attempt>): nat {
    if sends == [] then 0
    else AcceptedCount(sends[..|sends| - 1]) + (if sends[|sends| - 1].outcome.Accepted? then 1 else 0)
  }

  predicate Terminal(s: System, id: string) {
    id in s.world.rows && s.world.rows[id].status != Queued
  }

  /** A terminal row always reports the last send, never one that did not happen. */
  ghost predicate StatusMatchesLastSend(s: System, id: string) {
    id in s.world.rows ==>
      var row, n := s.world.rows[id], |s.world.sends|;
      && (row.status == Sent ==> n > 0 && s.world.sends[n - 1].outcome.Accepted?)
      && (row.status == Failed ==> n > 0 && !s.world.sends[n - 1].outcome.Accepted?)
  }

  /** The write after a send reaches the server. */
  predicate Written(env: Env) {
    env.write != Lost && env.kill != KillAfterSend
  }

  /** The status the last delivery leaves a row in: one that called the backend writes the outcome, but
    * a raising send only on the last attempt; one that did not leaves the row as it found it. */
  function StatusLeft(s: System): Status {
    if s.last.NoDelivery? then Queued
    else if !s.last.called then (if s.last.before.Some? then s.last.before.value else Queued)
    else if !Written(s.last.env) then Queued
    else match s.last.env.send
      case Accepted(_, _) => Sent
      case Refused(_, _) => Failed
      case Threw(_, _) => if s.last.attempts >= s.maxAttempts then Failed else Queued
  }

  ghost predicate Safe(s: System, id: string, others: map<string, AuditRow>) {
    && s.payload.auditId == Some(id) && id != ""
    && (id in s.world.rows <==> s.producer == Done)
    && s.world.rows - {id} == others
    && (s.producer != Done ==>
          s.world.sends == [] && (s.last.NoDelivery? || (!s.last.called && s.last.before.None?)))
    && (forall k :: 0 <= k < |s.world.sends| ==> s.world.sends[k].auditId == id)
    && StatusMatchesLastSend(s, id)
    && (id in s.world.rows ==> s.world.rows[id].status == StatusLeft(s))
    && EndState(s, id)
  }

  /** How a job can be over.  An acknowledged one has a terminal row.  One given up was on its last
    * attempt, or beyond, and ended in an exception, the send's own if the send raised, unless its
    * acknowledge failed.  The row of any other is what the last delivery left. */
  ghost predicate EndState(s: System, id: string) {
    && (s.ending == Acknowledged ==> Terminal(s, id))
    && (s.ending == Running ==> !Over(s))
    && (Over(s) && s.ending == GivenUp ==>
          && s.last.Delivery? && s.last.attempts >= s.maxAttempts
          && !s.last.outcome.Killed?
          && (s.last.outcome.Returned? ==> !s.last.env.ackOk && Terminal(s, id))
          && (s.last.called && s.last.env.send.Threw? ==>
                s.last.outcome == Raised(SendRaised(s.last.env.send.transport, s.last.env.send.message))))
  }

  lemma StepKeepsSafe(s: System, step: Step, id: string, others: map<string, AuditRow>)
    requires Safe(s, id, others)
    ensures Safe(Next(s, step), id, others)
  {
    if step.Deliver? {
      if step.copy < |s.copies| { DeliveryKeepsSafe(s, step.copy, step.env, id, others); }
    } else {
      hide Process;
      if step.ProducerCommits? && s.producer == InFlight {
        assert Next(s, step).world.rows - {id} == others;
      }
    }
  }

  /** What a delivery does to the rows and the sends. */
  lemma DeliveredWorld(s: System, i: nat, env: Env, id: string)
    requires s.payload.auditId == Some(id) && id != "" && i < |s.copies|
    ensures var t, called := Process(s, i, env), ReachesSend(JobOf(s, i), env, s.world.rows);
      && (!called ==> t.world == s.world)
      && (called ==>
            && id in s.world.rows && s.world.rows[id].status == Queued
            && t.world.sends == s.world.sends + [Attempt(id, env.send)]
            && id in t.world.rows && t.world.rows - {id} == s.world.rows - {id}
            && t.world.rows[id].status == StatusLeft(t))
  {
    hide Without;
  }

  lemma DeliveryKeepsSafe(s: System, i: nat, env: Env, id: string, others: map<string, AuditRow>)
    requires Safe(s, id, others) && i < |s.copies|
    ensures Safe(Process(s, i, env), id, others)
  {
    DeliveredWorld(s, i, env, id);
    hide Without;
  }

  lemma {:induction false} RunKeepsSafe(s: System, steps: seq<Step>, id: string, others: map<string, AuditRow>)
    requires Safe(s, id, others) && Budget(s)
    ensures Safe(Run(s, steps), id, others) && Budget(Run(s, steps))
    decreases |steps|
  {
    hide Safe, Budget, Next;
    if steps != [] {
      assert s.payload.auditId.Some? by { SafeHasId(s, id, others); }
      StepKeepsSafe(s, steps[0], id, others);
      StepKeepsBudget(s, steps[0]);
      RunKeepsSafe(Next(s, steps[0]), steps[1..], id, others);
    }
  }

  lemma SafeHasId(s: System, id: string, others: map<string, AuditRow>)
    requires Safe(s, id, others)
    ensures s.payload.auditId == Some(id)
  {
  }

  lemma StartIsSafe(s: System, id: string)
    requires Start(s, id)
    ensures Safe(s, id, s.world.rows) && Budget(s)
  {
    assert s.world.rows - {id} == s.world.rows;
    assert s.copies == [] + [Copy(0, Listed)];
    WeightAppend(s.maxAttempts, [], Copy(0, Listed));
  }

  // ---------------------------------------------------------------- main results

  /** Nothing is sent before the producer commits, no other audit row is ever touched, and the number of
    * sends exceeds max_attempts only by lost deliveries and by what duplicates add. */
  lemma NothingSentBeforeCommit(s: System, steps: seq<Step>, id: string)
    requires Start(s, id)
    ensures var e := Run(s, steps);
      && (e.world.sends != [] ==> e.producer == Done)
      && (e.producer == RolledBack ==> e.world == s.world)
      && e.world.rows - {id} == s.world.rows
      && |e.world.sends| <= Bound(e)
      && (e.lost == 0 ==> e.duplicated == 0)
  {
    StartIsSafe(s, id);
    RunKeepsSafe(s, steps, id, s.world.rows);
    var e := Run(s, steps);
    WeightIsPositive(e.maxAttempts, e.copies);
    if e.producer == RolledBack {
      assert e.world.rows == e.world.rows - {id};
    }
  }

  /** Once the row is sent or failed, no continuation sends again or changes any row. */
  lemma {:induction false} TerminalIsFinal(s: System, steps: seq<Step>, id: string)
    requires s.payload.auditId == Some(id) && id != ""
    requires s.producer == Done && Terminal(s, id)
    ensures Run(s, steps).world == s.world
    decreases |steps|
  {
    if steps != [] {
      TerminalIsFinal(Next(s, steps[0]), steps[1..], id);
    }
  }

  /** The end states of the protocol, for every history: the row is there exactly if the producer
    * committed, and is then what the last delivery left. */
  lemma EndStates(s: System, steps: seq<Step>, id: string)
    requires Start(s, id)
    ensures var e := Run(s, steps);
      && EndState(e, id)
      && StatusMatchesLastSend(e, id)
      && (id in e.world.rows <==> e.producer == Done)
      && (id in e.world.rows ==> e.world.rows[id].status == StatusLeft(e))
  {
    StartIsSafe(s, id);
    RunKeepsSafe(s, steps, id, s.world.rows);
  }

  // ---------------------------------------------------------------- at most one accepted message

  /** The write that follows an accepted send reaches the server: it is not lost, though it may raise,
    * and the worker lives to make it. */
  predicate WriteAfterSendHolds(step: Step) {
    step.Deliver? && step.env.send.Accepted? ==> Written(step.env)
  }

  ghost predicate OneSent(s: System, id: string) {
    && (id in s.world.rows && s.world.rows[id].status == Sent ==> AcceptedCount(s.world.sends) == 1)
    && (!(id in s.world.rows && s.world.rows[id].status == Sent) ==> AcceptedCount(s.world.sends) == 0)
  }

  lemma StepKeepsOneSent(s: System, step: Step, id: string, others: map<string, AuditRow>)
    requires Safe(s, id, others) && OneSent(s, id) && WriteAfterSendHolds(step)
    ensures OneSent(Next(s, step), id)
  {
    if step.Deliver? && step.copy < |s.copies| {
      DeliveredWorld(s, step.copy, step.env, id);
      var t, n := Next(s, step), |s.world.sends|;
      assert t.last.env == step.env && t.last.called == ReachesSend(JobOf(s, step.copy), step.env, s.world.rows);
      hide Safe, Process, ReachesSend;
      assert t.last.called ==> t.world.sends[..n] == s.world.sends;
    }
  }

  lemma {:induction false} RunKeepsOneSent(s: System, steps: seq<Step>, id: string, others: map<string, AuditRow>)
    requires Safe(s, id, others) && OneSent(s, id)
    requires forall k :: 0 <= k < |steps| ==> WriteAfterSendHolds(steps[k])
    ensures OneSent(Run(s, steps), id)
    decreases |steps|
  {
    if steps != [] {
      StepKeepsOneSent(s, steps[0], id, others);
      StepKeepsSafe(s, steps[0], id, others);
      RunKeepsOneSent(Next(s, steps[0]), steps[1..], id, others);
    }
  }

  /** If the write after every accepted send reaches the server, the backend accepts at most one
    * message over the whole history, and the row says "sent" exactly when it accepted one. */
  lemma AtMostOnceAccepted(s: System, steps: seq<Step>, id: string)
    requires Start(s, id)
    requires forall k :: 0 <= k < |steps| ==> WriteAfterSendHolds(steps[k])
    ensures var e := Run(s, steps);
      && AcceptedCount(e.world.sends) <= 1
      && (AcceptedCount(e.world.sends) == 1 <==> id in e.world.rows && e.world.rows[id].status == Sent)
  {
    StartIsSafe(s, id);
    RunKeepsOneSent(s, steps, id, s.world.rows);
  }

  /** A backend that takes the message, and nothing fails. */
  function Smooth(name: string): Env {
    Env(name, true, true, Accepted(name, None), Committed, NoKill, true, true)
  }

  lemma RunOne(s: System, step: Step)
    requires s.payload.auditId.Some?
    ensures Run(s, [step]) == Next(s, step)
  {
    assert [step][1..] == [];
  }

  lemma {:induction false} RunAppend(s: System, xs: seq<Step>, ys: seq<Step>)
    requires s.payload.auditId.Some?
    ensures Run(s, xs + ys) == Run(Run(s, xs), ys)
    decreases |xs|
  {
    if xs == [] {
      assert xs + ys == ys;
    } else {
      assert (xs + ys)[1..] == xs[1..] + ys;
      RunAppend(Next(s, xs[0]), xs[1..], ys);
    }
  }

  lemma {:induction false} OverSendsNoMore(s: System, steps: seq<Step>)
    requires s.payload.auditId.Some? && Over(s)
    ensures Run(s, steps).world.sends == s.world.sends && Over(Run(s, steps))
    decreases |steps|
  {
    if steps != [] {
      OverSendsNoMore(Next(s, steps[0]), steps[1..]);
    }
  }

  /** After an accepted send, some continuation makes the backend accept the message again if and only
    * if a copy of the job is left and the write was lost or the worker died before it. */
  lemma AcceptedAgainIff(s: System, i: nat, env: Env, id: string, others: map<string, AuditRow>)
    requires Safe(s, id, others) && i < |s.copies| && s.payload.complete
    requires ReachesSend(JobOf(s, i), env, s.world.rows) && env.send.Accepted?
    ensures var t := Next(s, Deliver(i, env));
      (exists steps :: AcceptedCount(Run(t, steps).world.sends) > AcceptedCount(t.world.sends))
      <==> !Over(t) && !Written(env)
  {
    var t := Next(s, Deliver(i, env));
    StepKeepsSafe(s, Deliver(i, env), id, others);
    if Over(t) {
      forall steps ensures Run(t, steps).world.sends == t.world.sends { OverSendsNoMore(t, steps); }
    } else if Written(env) {
      forall steps ensures Run(t, steps).world == t.world { TerminalIsFinal(t, steps, id); }
    } else {
      DeliveredWorld(s, i, env, id);
      AcceptsAgain(t, id);
    }
  }

  lemma AcceptsAgain(t: System, id: string)
    requires Sendable(t, id) && !Over(t)
    ensures exists steps :: AcceptedCount(Run(t, steps).world.sends) > AcceptedCount(t.world.sends)
  {
    var again := Deliver(0, Smooth("smtp"));
    RunOne(t, again);
    DeliveredWorld(t, 0, again.env, id);
    var sends := Run(t, [again]).world.sends;
    assert sends[..|sends| - 1] == t.world.sends;
  }

  /** The row is queued and the payload complete. */
  predicate Sendable(s: System, id: string) {
    && s.payload.auditId == Some(id) && id != "" && s.payload.complete
    && id in s.world.rows && s.world.rows[id].status == Queued
  }

  /** An instance from the start: one lost write after an accepted send lets the retry send again,
    * although nothing was killed and the queue worked. */
  lemma LostWriteSendsTwice(s: System, id: string, name: string)
    requires Start(s, id) && s.payload.complete && s.maxAttempts == 2
    ensures var env := Smooth(name).(write := Lost);
      var e := Run(s, [ProducerCommits, Deliver(0, env), Deliver(0, Smooth(name))]);
      && Over(e) && e.ending == Acknowledged && AcceptedCount(e.world.sends) == 2
  {
    var env := Smooth(name).(write := Lost);
    var d, d' := Deliver(0, env), Deliver(0, Smooth(name));
    var s1 := Next(s, ProducerCommits);
    var s2 := Next(s1, d);
    var s3 := Next(s2, d');
    assert s2.world.sends == [Attempt(id, env.send)] && s2.world.rows == s1.world.rows;
    assert s2.copies == [Copy(1, Listed)];
    assert s3.world.sends == [Attempt(id, env.send), Attempt(id, env.send)] && s3.copies == [];
    TwoAccepted(Attempt(id, env.send));
    assert [ProducerCommits, d, d'] == [ProducerCommits] + ([d] + [d']);
    hide Next;
    RunOne(s, ProducerCommits);
    RunOne(s1, d);
    RunOne(s2, d');
    RunAppend(s, [ProducerCommits], [d] + [d']);
    RunAppend(s1, [d], [d']);
  }

  lemma TwoAccepted(a: Attempt)
    requires a.outcome.Accepted?
    ensures AcceptedCount([a, a]) == 2
  {
    assert [a, a][..1] == [a] && [a][..0] == [];
    assert AcceptedCount([a]) == 1;
  }

  // ---------------------------------------------------------------- the bound on sends is exact

  /** One copy is left, its row is queued, and it can be sent. */
  predicate Ready(s: System, id: string, attempts: nat) {
    && s.payload.auditId == Some(id) && id != "" && s.payload.complete
    && s.producer == Done && |s.copies| == 1 && s.copies[0].attempts == attempts
    && id in s.world.rows && s.world.rows[id].status == Queued
  }

  /** A send that raises, and the reject that follows: without effect on the row before the last attempt. */
  const REFUSAL: Env := Env("smtp", true, true, Threw(true, "unreachable"), Committed, NoKill, true, true)

  /** The worker dies after the send. */
  const DEAD_AFTER_SEND: Env := Smooth("smtp").(kill := KillAfterSend)

  function Repeated(env: Env, n: nat): (steps: seq<Step>)
    ensures |steps| == n
  {
    seq(n, i => Deliver(0, env))
  }

  lemma RepeatedNext(s: System, env: Env, n: nat)
    requires s.payload.auditId.Some? && n > 0
    ensures Run(s, Repeated(env, n)) == Run(Next(s, Deliver(0, env)), Repeated(env, n - 1))
  {
    assert Repeated(env, n)[1..] == Repeated(env, n - 1);
  }

  /** Refused deliveries below the limit are retried, each with its own send. */
  lemma {:induction false} Refusals(s: System, id: string, a: nat, n: nat)
    requires Ready(s, id, a) && a + n < Max(1, s.maxAttempts)
    ensures var e := Run(s, Repeated(REFUSAL, n));
      && Ready(e, id, a + n) && e.lost == s.lost && e.duplicated == s.duplicated
      && |e.world.sends| == |s.world.sends| + n
    decreases n
  {
    if n > 0 {
      RepeatedNext(s, REFUSAL, n);
      Refusals(Next(s, Deliver(0, REFUSAL)), id, a + 1, n - 1);
    }
  }

  /** Deliveries that die after the send come back without end, each with its own send. */
  lemma {:induction false} Deaths(s: System, id: string, a: nat, n: nat)
    requires Ready(s, id, a)
    ensures var e := Run(s, Repeated(DEAD_AFTER_SEND, n));
      && Ready(e, id, a + n) && e.lost == s.lost + n && e.duplicated == s.duplicated
      && |e.world.sends| == |s.world.sends| + n
    decreases n
  {
    if n > 0 {
      RepeatedNext(s, DEAD_AFTER_SEND, n);
      Deaths(Next(s, Deliver(0, DEAD_AFTER_SEND)), id, a + 1, n - 1);
    }
  }

  lemma CommitMakesReady(s: System, id: string)
    requires Start(s, id) && s.payload.complete
    ensures Ready(Next(s, ProducerCommits), id, 0) && Run(s, [ProducerCommits]) == Next(s, ProducerCommits)
    ensures Next(s, ProducerCommits).lost == 0 && Next(s, ProducerCommits).world.sends == []
  {
    RunOne(s, ProducerCommits);
  }

  /** Without duplicates the bound is attained, for every limit and every number of lost deliveries. */
  lemma BoundIsAttained(s: System, id: string, lost: nat) returns (steps: seq<Step>)
    requires Start(s, id) && s.payload.complete
    ensures var e := Run(s, steps);
      e.lost == lost && e.duplicated == 0 && |e.world.sends| == Bound(e)
  {
    var n := Max(1, s.maxAttempts) - 1;
    var s1 := Next(s, ProducerCommits);
    var s2 := Run(s1, Repeated(REFUSAL, n));
    var s3 := Run(s2, Repeated(DEAD_AFTER_SEND, lost));
    CommitMakesReady(s, id);
    Refusals(s1, id, 0, n);
    Deaths(s2, id, n, lost);
    RunOne(s3, Deliver(0, REFUSAL));
    steps := [ProducerCommits] + Repeated(REFUSAL, n) + Repeated(DEAD_AFTER_SEND, lost) + [Deliver(0, REFUSAL)];
    RunAppend(s, [ProducerCommits], Repeated(REFUSAL, n));
    RunAppend(s, [ProducerCommits] + Repeated(REFUSAL, n), Repeated(DEAD_AFTER_SEND, lost));
    RunAppend(s, [ProducerCommits] + Repeated(REFUSAL, n) + Repeated(DEAD_AFTER_SEND, lost), [Deliver(0, REFUSAL)]);
  }

  lemma {:induction false} IncompleteNeverSends(s: System, steps: seq<Step>)
    requires s.payload.auditId.Some? && !s.payload.complete
    ensures Run(s, steps).world.sends == s.world.sends
    decreases |steps|
  {
    if steps != [] {
      IncompleteNeverSends(Next(s, steps[0]), steps[1..]);
    }
  }

  /** No history with at most `lost` lost deliveries sends more than max_attempts times. */
  ghost predicate SendsStayWithin(s: System, lost: nat)
    requires s.payload.auditId.Some?
  {
    forall steps :: Run(s, steps).lost <= lost ==> |Run(s, steps).world.sends| <= s.maxAttempts
  }

  /** Exactly when max_attempts itself bounds the sends: it is positive and no delivery is lost, or
    * the payload can never be sent. */
  lemma SendsStayWithinIff(s: System, id: string, lost: nat)
    requires Start(s, id)
    ensures SendsStayWithin(s, lost) <==> !s.payload.complete || (s.maxAttempts >= 1 && lost == 0)
  {
    if !s.payload.complete {
      forall steps ensures Run(s, steps).world.sends == [] { IncompleteNeverSends(s, steps); }
    } else if s.maxAttempts >= 1 && lost == 0 {
      forall steps | Run(s, steps).lost <= lost ensures |Run(s, steps).world.sends| <= s.maxAttempts {
        NothingSentBeforeCommit(s, steps, id);
      }
    } else {
      var steps := BoundIsAttained(s, id, lost);
    }
  }

  /** The smallest case: one attempt allowed, two workers dead after the send, two sends. */
  lemma DeadWorkersSendBeyondTheLimit(s: System, id: string)
    requires Start(s, id) && s.payload.complete && s.maxAttempts == 1
    ensures |Run(s, [ProducerCommits] + Repeated(DEAD_AFTER_SEND, 2)).world.sends| == 2
  {
    CommitMakesReady(s, id);
    RunAppend(s, [ProducerCommits], Repeated(DEAD_AFTER_SEND, 2));
    Deaths(Next(s, ProducerCommits), id, 0, 2);
  }

  // ---------------------------------------------------------------- ends nobody planned

  /** A job can be given up although its message went out and its row says so: the acknowledge of the
    * last attempt raises, and the reject discards the job. */
  lemma GivenUpAlthoughSent(s: System, id: string)
    requires Start(s, id) && s.payload.complete
    ensures var n := Max(1, s.maxAttempts) - 1;
      var e := Run(s, [ProducerCommits] + Repeated(REFUSAL, n) + [Deliver(0, Smooth("smtp").(ackOk := false))]);
      && Over(e) && e.ending == GivenUp && id in e.world.rows && e.world.rows[id].status == Sent
  {
    var n := Max(1, s.maxAttempts) - 1;
    var s1 := Next(s, ProducerCommits);
    var s2 := Run(s1, Repeated(REFUSAL, n));
    var last := Deliver(0, Smooth("smtp").(ackOk := false));
    CommitMakesReady(s, id);
    Refusals(s1, id, 0, n);
    RunOne(s2, last);
    RunAppend(s, [ProducerCommits], Repeated(REFUSAL, n));
    RunAppend(s, [ProducerCommits] + Repeated(REFUSAL, n), [last]);
  }

  /** The reject of the first attempt removes the job and raises before it puts it back. */
  function HalfDoneReject(): seq<Step> {
    [ProducerCommits] + [Deliver(0, REFUSAL.(rejectOk := false))] + [Vanish(0)]
  }

  /** Then the job is over after one attempt, whatever the limit, and its row stays queued for ever,
    * although no write was lost. */
  lemma HalfDoneRejectStrandsTheRow(s: System, id: string)
    requires Start(s, id) && s.payload.complete && s.maxAttempts >= 2
    ensures var e := Run(s, HalfDoneReject());
      && Over(e) && e.ending == Vanished && e.last.attempts == 1
      && id in e.world.rows && e.world.rows[id].status == Queued
      && forall more :: Run(e, more).world == e.world
  {
    var d := Deliver(0, REFUSAL.(rejectOk := false));
    var s1 := Next(s, ProducerCommits);
    var s2 := Next(s1, d);
    var e := Next(s2, Vanish(0));
    assert s2.copies == [Copy(1, Processing)];
    assert e.copies == [];
    RunOne(s, ProducerCommits);
    RunOne(s1, d);
    RunOne(s2, Vanish(0));
    RunAppend(s, [ProducerCommits], [d]);
    RunAppend(s, [ProducerCommits] + [d], [Vanish(0)]);
    forall more ensures Run(e, more).world == e.world { OverStays(e, more); }
  }

  lemma {:induction false} OverStays(s: System, steps: seq<Step>)
    requires s.payload.auditId.Some? && Over(s) && s.producer == Done
    ensures Run(s, steps) == s
    decreases |steps|
  {
    if steps != [] {
      OverStays(Next(s, steps[0]), steps[1..]);
    }
  }

  predicate NoneVanishes(steps: seq<Step>) {
    forall k :: 0 <= k < |steps| ==> !steps[k].Vanish?
  }

  lemma {:induction false} NothingVanished(s: System, steps: seq<Step>)
    requires s.payload.auditId.Some? && s.ending != Vanished && NoneVanishes(steps)
    ensures Run(s, steps).ending != Vanished
    decreases |steps|
  {
    if steps != [] {
      NothingVanished(Next(s, steps[0]), steps[1..]);
    }
  }

  /** Some history of the given kind ends the job without an acknowledge and without giving it up. */
  ghost predicate CanEndUnsettled(s: System, mayVanish: bool)
    requires s.payload.auditId.Some?
  {
    exists steps :: (mayVanish || NoneVanishes(steps)) && Over(Run(s, steps)) && Run(s, steps).ending == Vanished
  }

  /** A job ends acknowledged or given up in all histories exactly if copies cannot vanish; whatever else
    * fails, they come back. */
  lemma EndsUnsettledIff(s: System, id: string, mayVanish: bool)
    requires Start(s, id)
    ensures CanEndUnsettled(s, mayVanish) <==> mayVanish
  {
    if mayVanish {
      RunOne(s, Vanish(0));
      assert Over(Run(s, [Vanish(0)]));
    } else {
      forall steps | NoneVanishes(steps) ensures Run(s, steps).ending != Vanished { NothingVanished(s, steps); }
    }
  }

  /** The job's stored copy comes back twice: with one attempt allowed and one lost delivery there are
    * three sends, one more than without the duplicate, and as many as the bound allows. */
  lemma DuplicateSendsBeyond(s: System, id: string)
    requires Start(s, id) && s.payload.complete && s.maxAttempts == 1
    ensures var late := REFUSAL.(write := Lost);
      var e := Run(s, [ProducerCommits] + Repeated(DEAD_AFTER_SEND, 1) + [Duplicate(0)] + Repeated(late, 2));
      && e.lost == 1 && e.duplicated == 1 && |e.world.sends| == 3 == Bound(e)
  {
    var late := REFUSAL.(write := Lost);
    var d := Deliver(0, late);
    var s1 := Next(s, ProducerCommits);
    var s2 := Run(s1, Repeated(DEAD_AFTER_SEND, 1));
    var s3 := Next(s2, Duplicate(0));
    CommitMakesReady(s, id);
    Deaths(s1, id, 0, 1);
    OneDeath(s1, id);
    RunOne(s2, Duplicate(0));
    OneLate(s3, id);
    OneLate(Next(s3, d), id);
    RepeatedNext(s3, late, 2);
    RepeatedNext(Next(s3, d), late, 1);
    assert Run(Next(Next(s3, d), d), Repeated(late, 0)) == Next(Next(s3, d), d);
    hide Next, REFUSAL;
    RunAppend(s, [ProducerCommits], Repeated(DEAD_AFTER_SEND, 1));
    RunAppend(s, [ProducerCommits] + Repeated(DEAD_AFTER_SEND, 1), [Duplicate(0)]);
    RunAppend(s, [ProducerCommits] + Repeated(DEAD_AFTER_SEND, 1) + [Duplicate(0)], Repeated(late, 2));
  }

  lemma OneDeath(s: System, id: string)
    requires Ready(s, id, 0)
    ensures Run(s, Repeated(DEAD_AFTER_SEND, 1)).copies == [Copy(1, Processing)]
  {
    RepeatedNext(s, DEAD_AFTER_SEND, 1);
    var t := Next(s, Deliver(0, DEAD_AFTER_SEND));
    assert Run(t, Repeated(DEAD_AFTER_SEND, 0)) == t;
  }

  /** A raising send on the last attempt whose terminal write is lost: the copy goes, the row stays
    * queued. */
  lemma OneLate(s: System, id: string)
    requires Sendable(s, id) && s.copies != [] && s.copies[0].attempts + 1 >= s.maxAttempts
    ensures var t := Next(s, Deliver(0, REFUSAL.(write := Lost)));
      && Sendable(t, id) && |t.world.sends| == |s.world.sends| + 1
      && t.lost == s.lost && t.duplicated == s.duplicated && t.maxAttempts == s.maxAttempts
      && t.copies == s.copies[1..]
  {
    assert Without(s.copies, 0) == s.copies[1..];
  }
}
