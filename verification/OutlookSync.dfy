/**
  * Outlook delta sync into a knowledge base.  The mailbox is an append-only change log, a delta
  * link is a position in it, and one ingest run fetches the changes after the stored link, applies
  * them one by one, and stores the new link.  Fetches, knowledge-base calls and cursor calls may
  * fail, and a run may die half way; the question is what the knowledge base holds afterwards.
  */
module OutlookSync {
  import opened Wrappers

  type Id = string
  type Docs = map<Id, string>

  /** A Graph message; `removed` is the presence of the "@removed" annotation. */
  datatype Message = Message(removed: bool, id: Option<Id>, body: string)

  /** A call that raises may still have taken effect on the other side. */
  datatype CallOutcome = Done | Failed(applied: bool)

  datatype Response =
    | Page(value: seq<Message>, more: bool, deltaLink: Option<nat>)
    | NotAnObject
    | Gone                    // HTTP 410
    | Fails                   // any other error

  datatype SkipCode = DeletionFailed | MissingId | IngestionFailed

  datatype Skip = Skip(item: Option<Id>, code: SkipCode)

  datatype Summary = Summary(ingested: nat, deleted: nat, skips: seq<Skip>)

  datatype RunResult =
    | Completed(summary: Summary, link: Option<nat>)
    | Aborted                 // an exception reached the executor
    | Died                    // the worker was killed while applying messages

  /** What the environment decides during one run. */
  datatype Env = Env(
    resetCursor: bool,
    cursorReadOk: bool,
    linkFound: bool,                   // the stored data is, or holds, a delta link
    deltaResponses: seq<Response>,
    cursorDeleteOk: bool,
    listing: Option<seq<Message>>,     // the time-windowed list; None when it raises
    initialLink: Option<nat>,          // link of the first delta query after a full sync
    outcomes: seq<CallOutcome>,        // of the i-th message; Done beyond the end
    diesAfter: Option<nat>,            // killed after that many messages
    cursorSaveOk: bool)

  // ---------------------------------------------------------------- messages and their effect

  function MessageId(m: Message): Option<Id> {
    if m.id.Some? && m.id.value != "" then m.id else None
  }

  function Apply(docs: Docs, m: Message): Docs {
    match MessageId(m)
    case None => docs
    case Some(id) => if m.removed then docs - {id} else docs[id := m.body]
  }

  /** The knowledge base that has taken in every message, in order. */
  function Replay(docs: Docs, ms: seq<Message>): Docs {
    if ms == [] then docs else Apply(Replay(docs, ms[..|ms| - 1]), ms[|ms| - 1])
  }

  function OutcomeAt(outcomes: seq<CallOutcome>, i: nat): CallOutcome {
    if i < |outcomes| then outcomes[i] else Done
  }

  predicate TookEffect(o: CallOutcome) {
    o.Done? || o.applied
  }

  /** The knowledge base after the calls for `ms`, each with its own outcome. */
  function Effect(docs: Docs, ms: seq<Message>, outcomes: seq<CallOutcome>): Docs {
    if ms == [] then docs
    else
      var n := |ms| - 1;
      var before := Effect(docs, ms[..n], outcomes);
      if TookEffect(OutcomeAt(outcomes, n)) then Apply(before, ms[n]) else before
  }

  /** The messages whose calls took effect, in order. */
  function Effective(ms: seq<Message>, outcomes: seq<CallOutcome>): seq<Message> {
    if ms == [] then []
    else
      var n := |ms| - 1;
      var before := Effective(ms[..n], outcomes);
      if TookEffect(OutcomeAt(outcomes, n)) then before + [ms[n]] else before
  }

  /** How the i-th message is counted: exactly one of the four, except that a removal without an
    * id is dropped silently. */
  function SkipOf(m: Message, o: CallOutcome): Option<Skip> {
    var id := MessageId(m);
    if id.None? then (if m.removed then None else Some(Skip(None, MissingId)))
    else if o.Done? then None
    else Some(Skip(id, if m.removed then DeletionFailed else IngestionFailed))
  }

  function Tally(ms: seq<Message>, outcomes: seq<CallOutcome>): Summary {
    if ms == [] then Summary(0, 0, [])
    else
      var n := |ms| - 1;
      var before, m, o := Tally(ms[..n], outcomes), ms[n], OutcomeAt(outcomes, n);
      match SkipOf(m, o)
      case Some(skip) => before.(skips := before.skips + [skip])
      case None =>
        if MessageId(m).None? then before
        else if m.removed then before.(deleted := before.deleted + 1)
        else before.(ingested := before.ingested + 1)
  }

  function RemovedWithoutId(ms: seq<Message>): nat {
    if ms == [] then 0
    else RemovedWithoutId(ms[..|ms| - 1]) + if ms[|ms| - 1].removed && MessageId(ms[|ms| - 1]).None? then 1 else 0
  }

  /** No message is counted twice or lost from the counts. */
  lemma {:induction false} TallyAccountsForAll(ms: seq<Message>, outcomes: seq<CallOutcome>)
    ensures var t := Tally(ms, outcomes);
      t.ingested + t.deleted + |t.skips| + RemovedWithoutId(ms) == |ms|
    decreases |ms|
  {
    if ms != [] { TallyAccountsForAll(ms[..|ms| - 1], outcomes); }
  }

  // ---------------------------------------------------------------- one run

  datatype Fetched = FetchedAll(messages: seq<Message>, link: Option<nat>) | FetchGone | FetchFailed

  /** Paging through @odata.nextLink; a chain that breaks off counts as a failed fetch. */
  function Fetch(responses: seq<Response>): Fetched {
    if responses == [] then FetchFailed
    else match responses[0]
      case Gone => FetchGone
      case Fails => FetchFailed
      case NotAnObject => FetchedAll([], None)
      case Page(value, more, link) =>
        if !more then FetchedAll(value, link) else PrependTo(value, Fetch(responses[1..]))
  }

  function PrependTo(ms: seq<Message>, f: Fetched): Fetched {
    match f
    case FetchedAll(rest, link) => FetchedAll(ms + rest, link)
    case _ => f
  }

  method FetchDelta(responses: seq<Response>) returns (f: Fetched)
    ensures f == Fetch(responses)
  {
    var messages: seq<Message> := [];
    var i := 0;
    assert responses[0..] == responses;
    assert forall ms: seq<Message> :: [] + ms == ms;
    while i < |responses|
      invariant 0 <= i <= |responses|
      invariant Fetch(responses) == PrependTo(messages, Fetch(responses[i..]))
    {
      assert responses[i..][1..] == responses[i + 1..];
      match responses[i] {
        case Gone => return FetchGone;
        case Fails => return FetchFailed;
        case NotAnObject =>
          assert messages + [] == messages;
          return FetchedAll(messages, None);
        case Page(value, more, link) =>
          assert forall rest: seq<Message> :: (messages + value) + rest == messages + (value + rest);
          messages := messages + value;
          if !more { return FetchedAll(messages, link); }
      }
      i := i + 1;
    }
    return FetchFailed;
  }

  /** What a run will apply, decided before it touches the knowledge base. */
  datatype Plan =
    | Delta(messages: seq<Message>, link: Option<nat>)
    | Full(messages: seq<Message>, link: Option<nat>)
    | Stop

  function FullPlan(env: Env): Plan {
    if env.listing.None? then Stop else Full(env.listing.value, env.initialLink)
  }

  /** The plan and the cursor after planning: a 410 drops the cursor, best effort. */
  function PlanOf(env: Env, cursor: Option<nat>): (Plan, Option<nat>) {
    if env.resetCursor || !env.cursorReadOk || cursor.None? || !env.linkFound then (FullPlan(env), cursor)
    else match Fetch(env.deltaResponses)
      case FetchedAll(ms, link) => (Delta(ms, link), cursor)
      case FetchGone => (FullPlan(env), if env.cursorDeleteOk then None else cursor)
      case FetchFailed => (Stop, cursor)
  }

  /** How many of the planned messages are processed before the run ends. */
  function Processed(env: Env, ms: seq<Message>): nat {
    if env.diesAfter.Some? && env.diesAfter.value <= |ms| then env.diesAfter.value else |ms|
  }

  predicate Dies(env: Env, ms: seq<Message>) {
    env.diesAfter.Some? && env.diesAfter.value <= |ms|
  }

  /** The specification of one run. */
  function RunOnce(env: Env, docs: Docs, cursor: Option<nat>): (RunResult, Docs, Option<nat>) {
    var (plan, planned) := PlanOf(env, cursor);
    if plan.Stop? then (Aborted, docs, planned)
    else
      var ms := plan.messages[..Processed(env, plan.messages)];
      var docs' := Effect(docs, ms, env.outcomes);
      if Dies(env, plan.messages) then (Died, docs', planned)
      else
        (Completed(Tally(ms, env.outcomes), plan.link), docs',
         if plan.link.Some? && env.cursorSaveOk then plan.link else planned)
  }

  class KnowledgeBase {
    var docs: Docs

    constructor ()
      ensures docs == map[]
    {
      docs := map[];
    }

    method DeleteKo(id: Id, o: CallOutcome) returns (raised: bool)
      modifies this
      ensures docs == if TookEffect(o) then old(docs) - {id} else old(docs)
      ensures raised <==> !o.Done?
    {
      if TookEffect(o) { docs := docs - {id}; }
      raised := !o.Done?;
    }

    method IngestEmail(id: Id, body: string, o: CallOutcome) returns (raised: bool)
      modifies this
      ensures docs == if TookEffect(o) then old(docs)[id := body] else old(docs)
      ensures raised <==> !o.Done?
    {
      if TookEffect(o) { docs := docs[id := body]; }
      raised := !o.Done?;
    }
  }

  class CursorStore {
    var link: Option<nat>

    constructor ()
      ensures link == None
    {
      link := None;
    }
  }

  method ProcessMessages(messages: seq<Message>, outcomes: seq<CallOutcome>, kb: KnowledgeBase)
    returns (summary: Summary)
    modifies kb
    ensures kb.docs == Effect(old(kb.docs), messages, outcomes)
    ensures summary == Tally(messages, outcomes)
  {
    var ingestionCount, deletedCount, skips := 0, 0, [];
    var i := 0;
    while i < |messages|
      invariant 0 <= i <= |messages|
      invariant kb.docs == Effect(old(kb.docs), messages[..i], outcomes)
      invariant Summary(ingestionCount, deletedCount, skips) == Tally(messages[..i], outcomes)
    {
      var message, outcome := messages[i], OutcomeAt(outcomes, i);
      assert messages[..i + 1][..i] == messages[..i];
      var id := MessageId(message);
      if message.removed {
        if id.Some? {
          var raised := kb.DeleteKo(id.value, outcome);
          if raised {
            skips := skips + [Skip(id, DeletionFailed)];
          } else {
            deletedCount := deletedCount + 1;
          }
        }
      } else if id.None? {
        skips := skips + [Skip(None, MissingId)];
      } else {
        var raised := kb.IngestEmail(id.value, message.body, outcome);
        if raised {
          skips := skips + [Skip(id, IngestionFailed)];
        } else {
          ingestionCount := ingestionCount + 1;
        }
      }
      i := i + 1;
    }
    assert messages[..i] == messages;
    summary := Summary(ingestionCount, deletedCount, skips);
  }

  method ExecuteIngest(env: Env, kb: KnowledgeBase, cursor: CursorStore) returns (r: RunResult)
    modifies kb, cursor
    ensures (r, kb.docs, cursor.link) == RunOnce(env, old(kb.docs), old(cursor.link))
  {
    var messages: seq<Message> := [];
    var deltaLink: Option<nat> := None;
    var useDeltaSync := !env.resetCursor && env.cursorReadOk && cursor.link.Some? && env.linkFound;
    if useDeltaSync {
      var fetched := FetchDelta(env.deltaResponses);
      match fetched {
        case FetchedAll(ms, link) => messages, deltaLink := ms, link;
        case FetchGone =>
          useDeltaSync := false;
          if env.cursorDeleteOk { cursor.link := None; }
        case FetchFailed => return Aborted;
      }
    }
    if !useDeltaSync {
      if env.listing.None? { return Aborted; }
      messages, deltaLink := env.listing.value, env.initialLink;
    }
    if Dies(env, messages) {
      var partial := ProcessMessages(messages[..env.diesAfter.value], env.outcomes, kb);
      return Died;
    }
    assert messages[..|messages|] == messages;
    var summary := ProcessMessages(messages, env.outcomes, kb);
    if deltaLink.Some? && env.cursorSaveOk {
      cursor.link := deltaLink;
    }
    return Completed(summary, deltaLink);
  }

  // ---------------------------------------------------------------- what a run does, exactly

  /** The messages are those of the first n responses, page by page. */
  ghost predicate Joined(responses: seq<Response>, n: nat, ms: seq<Message>)
    requires n <= |responses|
  {
    && |ms| == Offset(responses, n)
    && forall i :: 0 <= i < n && responses[i].Page? ==>
         Offset(responses, i) + |responses[i].value| <= |ms|
         && ms[Offset(responses, i)..Offset(responses, i) + |responses[i].value|] == responses[i].value
  }

  lemma {:induction false} OffsetGrows(responses: seq<Response>, i: nat, n: nat)
    requires i < n <= |responses|
    ensures Offset(responses, i) + (if responses[i].Page? then |responses[i].value| else 0) <= Offset(responses, n)
    decreases n
  {
    if i < n - 1 { OffsetGrows(responses, i, n - 1); }
  }

  lemma {:induction false} OffsetTail(responses: seq<Response>, n: nat)
    requires responses != [] && n <= |responses| - 1
    ensures Offset(responses, n + 1) ==
            (if responses[0].Page? then |responses[0].value| else 0) + Offset(responses[1..], n)
    decreases n
  {
    if n > 0 { OffsetTail(responses, n - 1); }
  }

  lemma JoinedTail(responses: seq<Response>, n: nat, rest: seq<Message>)
    requires responses != [] && responses[0].Page? && n <= |responses| - 1 && Joined(responses[1..], n, rest)
    ensures Joined(responses, n + 1, responses[0].value + rest)
  {
    var all, m := responses[0].value + rest, |responses[0].value|;
    OffsetTail(responses, n);
    forall i | 0 <= i < n + 1 && responses[i].Page?
      ensures Offset(responses, i) + |responses[i].value| <= |all|
              && all[Offset(responses, i)..Offset(responses, i) + |responses[i].value|] == responses[i].value
    {
      if i > 0 {
        OffsetTail(responses, i - 1);
        var at := Offset(responses[1..], i - 1);
        assert responses[1..][i - 1] == responses[i];
        assert all[m + at..m + at + |responses[i].value|] == rest[at..at + |responses[i].value|];
      }
    }
  }

  /** Fetching follows next links up to the first response that is no page with one: another failure or
    * no response at all fails, a 410 is told apart, and otherwise the messages of all the pages come
    * back in order, with the last page's link. */
  lemma {:induction false} FetchIs(responses: seq<Response>, k: nat)
    requires k <= |responses| && forall i :: 0 <= i < k ==> Continues(responses, i)
    requires k < |responses| ==> !Continues(responses, k)
    ensures var f := Fetch(responses);
      && (k == |responses| ==> f == FetchFailed)
      && (k < |responses| ==>
            match responses[k]
            case Gone => f == FetchGone
            case Fails => f == FetchFailed
            case NotAnObject => f.FetchedAll? && f.link == None && Joined(responses, k, f.messages)
            case Page(_, _, link) => f.FetchedAll? && f.link == link && Joined(responses, k + 1, f.messages))
    decreases k
  {
    if k > 0 {
      assert Continues(responses, 0);
      forall i | 0 <= i < k - 1 ensures Continues(responses[1..], i) {
        assert Continues(responses, i + 1);
      }
      FetchIs(responses[1..], k - 1);
      if k < |responses| && Fetch(responses[1..]).FetchedAll? {
        var rest := Fetch(responses[1..]).messages;
        JoinedTail(responses, if responses[k].Page? then k else k - 1, rest);
      }
    }
  }

  /** The i-th message is about id, and its call took effect. */
  predicate Effected(ms: seq<Message>, outcomes: seq<CallOutcome>, id: Id, i: nat)
    requires i < |ms|
  {
    ms[i].id == Some(id) && id != ""
    && (i >= |outcomes| || outcomes[i] == Done || outcomes[i] == Failed(true))
  }

  function Asks(m: Message): Option<string> {
    if m.removed then None else Some(m.body)
  }

  /** What is left of an id is what the last effective call about it asked. */
  lemma {:induction false} LastDoneIs(ms: seq<Message>, outcomes: seq<CallOutcome>, id: Id)
    ensures LastDone(ms, outcomes, id) == None ==> forall i :: 0 <= i < |ms| ==> !Effected(ms, outcomes, id, i)
    ensures LastDone(ms, outcomes, id).Some? ==>
              exists i :: 0 <= i < |ms| && Effected(ms, outcomes, id, i)
                && LastDone(ms, outcomes, id).value == Asks(ms[i])
                && forall j :: i < j < |ms| ==> !Effected(ms, outcomes, id, j)
    decreases |ms|
  {
    if ms != [] {
      var n := |ms| - 1;
      var init := ms[..n];
      LastDoneIs(init, outcomes, id);
      forall i | 0 <= i < n ensures Effected(init, outcomes, id, i) <==> Effected(ms, outcomes, id, i) {
      }
      if !Effected(ms, outcomes, id, n) && LastDone(init, outcomes, id).Some? {
        var i :| 0 <= i < |init| && Effected(init, outcomes, id, i)
          && LastDone(init, outcomes, id).value == Asks(init[i])
          && forall j :: i < j < |init| ==> !Effected(init, outcomes, id, j);
        assert Effected(ms, outcomes, id, i);
      }
    }
  }

  lemma AskedIsDone(ms: seq<Message>, id: Id)
    ensures LastAsked(ms, id) == LastDone(ms, [], id)
    decreases |ms|
  {
    if ms != [] { AskedIsDone(ms[..|ms| - 1], id); }
  }

  predicate HasId(m: Message) {
    m.id.Some? && m.id.value != ""
  }

  predicate CallDone(outcomes: seq<CallOutcome>, i: nat) {
    i >= |outcomes| || outcomes[i] == Done
  }

  ghost function Ingested(ms: seq<Message>, outcomes: seq<CallOutcome>): set<nat> {
    set i: nat | i < |ms| && !ms[i].removed && HasId(ms[i]) && CallDone(outcomes, i)
  }

  ghost function Deleted(ms: seq<Message>, outcomes: seq<CallOutcome>): set<nat> {
    set i: nat | i < |ms| && ms[i].removed && HasId(ms[i]) && CallDone(outcomes, i)
  }

  /** The entry the i-th message makes in the list of skips, if it makes one. */
  predicate SkipsWith(ms: seq<Message>, outcomes: seq<CallOutcome>, i: nat, skip: Skip)
    requires i < |ms|
  {
    if !HasId(ms[i]) then !ms[i].removed && skip == Skip(None, MissingId)
    else !CallDone(outcomes, i) && skip == Skip(ms[i].id, if ms[i].removed then DeletionFailed else IngestionFailed)
  }

  ghost predicate SkipMade(ms: seq<Message>, outcomes: seq<CallOutcome>, skip: Skip) {
    exists i :: 0 <= i < |ms| && SkipsWith(ms, outcomes, i, skip)
  }

  lemma OneMore(a: set<nat>, n: nat)
    requires n !in a
    ensures |a + {n}| == |a| + 1
  {
  }

  lemma IngestedGrows(ms: seq<Message>, outcomes: seq<CallOutcome>)
    requires ms != []
    ensures var n := |ms| - 1; var init := ms[..n];
      && n !in Ingested(init, outcomes)
      && Ingested(ms, outcomes) ==
         if !ms[n].removed && HasId(ms[n]) && CallDone(outcomes, n) then Ingested(init, outcomes) + {n}
         else Ingested(init, outcomes)
  {
  }

  lemma DeletedGrows(ms: seq<Message>, outcomes: seq<CallOutcome>)
    requires ms != []
    ensures var n := |ms| - 1; var init := ms[..n];
      && n !in Deleted(init, outcomes)
      && Deleted(ms, outcomes) ==
         if ms[n].removed && HasId(ms[n]) && CallDone(outcomes, n) then Deleted(init, outcomes) + {n}
         else Deleted(init, outcomes)
  {
  }

  lemma {:induction false} CountsAre(ms: seq<Message>, outcomes: seq<CallOutcome>)
    ensures Tally(ms, outcomes).ingested == |Ingested(ms, outcomes)|
    ensures Tally(ms, outcomes).deleted == |Deleted(ms, outcomes)|
    decreases |ms|
  {
    if ms == [] {
      assert Ingested(ms, outcomes) == {} && Deleted(ms, outcomes) == {};
    } else {
      var n := |ms| - 1;
      CountsAre(ms[..n], outcomes);
      IngestedGrows(ms, outcomes);
      DeletedGrows(ms, outcomes);
      hide Ingested, Deleted;
      OneMore(Ingested(ms[..n], outcomes), n);
      OneMore(Deleted(ms[..n], outcomes), n);
    }
  }

  lemma {:induction false} SkipsAre(ms: seq<Message>, outcomes: seq<CallOutcome>, skip: Skip)
    ensures skip in Tally(ms, outcomes).skips <==> SkipMade(ms, outcomes, skip)
    decreases |ms|
  {
    if ms != [] {
      var n := |ms| - 1;
      var init := ms[..n];
      SkipsAre(init, outcomes, skip);
      assert skip in Tally(ms, outcomes).skips <==> skip in Tally(init, outcomes).skips || SkipsWith(ms, outcomes, n, skip);
      hide Tally;
      if SkipMade(ms, outcomes, skip) {
        var i :| 0 <= i < |ms| && SkipsWith(ms, outcomes, i, skip);
        if i < n { assert SkipsWith(init, outcomes, i, skip); }
      }
      if SkipMade(init, outcomes, skip) {
        var i :| 0 <= i < n && SkipsWith(init, outcomes, i, skip);
        assert SkipsWith(ms, outcomes, i, skip);
      }
    }
  }

  /** The counters and the skips of a run are those of its messages. */
  lemma TallyIs(ms: seq<Message>, outcomes: seq<CallOutcome>)
    ensures var t := Tally(ms, outcomes);
      && t.ingested == |Ingested(ms, outcomes)| && t.deleted == |Deleted(ms, outcomes)|
      && forall skip :: skip in t.skips <==> SkipMade(ms, outcomes, skip)
  {
    CountsAre(ms, outcomes);
    forall skip ensures skip in Tally(ms, outcomes).skips <==> SkipMade(ms, outcomes, skip) {
      SkipsAre(ms, outcomes, skip);
    }
  }

  /** The id after a run is what the last effective call among these messages asked, or as before. */
  ghost predicate Processes(ms: seq<Message>, outcomes: seq<CallOutcome>, before: Docs, after: Docs) {
    forall id ::
      Get(after, id) == var v := LastDone(ms, outcomes, id); if v.Some? then v.value else Get(before, id)
  }

  /** A run that gets to process the given messages, from the listing or from the pages, processes all
    * of them unless it dies, accounts for each, and stores the link if there is one. */
  ghost predicate RunsOver(env: Env, docs: Docs, cursor: Option<nat>, ms: seq<Message>, link: Option<nat>) {
    var (r, docs', cursor') := RunOnce(env, docs, cursor);
    var gone := UsesDelta(env, cursor) && Fetch(env.deltaResponses).FetchGone?;
    var kept := if gone && env.cursorDeleteOk then None else cursor;
    if env.diesAfter.Some? && env.diesAfter.value <= |ms| then
      r == Died && cursor' == kept && Processes(ms[..env.diesAfter.value], env.outcomes, docs, docs')
    else
      && r.Completed? && r.link == link && r.summary == Tally(ms, env.outcomes)
      && r.summary.ingested + r.summary.deleted + |r.summary.skips| + RemovedWithoutId(ms) == |ms|
      && Processes(ms, env.outcomes, docs, docs')
      && cursor' == if link.Some? && env.cursorSaveOk then link else kept
  }

  /** A full run, without a usable link or after a 410, ingests the listing; if listing raises it stops. */
  lemma FullRunIs(env: Env, docs: Docs, cursor: Option<nat>)
    requires !UsesDelta(env, cursor) || Fetch(env.deltaResponses).FetchGone?
    ensures env.listing.Some? ==> RunsOver(env, docs, cursor, env.listing.value, env.initialLink)
    ensures env.listing.None? ==>
              RunOnce(env, docs, cursor) ==
              (Aborted, docs, if UsesDelta(env, cursor) && env.cursorDeleteOk then None else cursor)
  {
    if env.listing.Some? { RunProcesses(env, docs, cursor, env.listing.value); }
  }

  /** A delta run ingests what it fetched; if fetching fails it stops and keeps its link. */
  lemma DeltaRunIs(env: Env, docs: Docs, cursor: Option<nat>)
    requires UsesDelta(env, cursor) && !Fetch(env.deltaResponses).FetchGone?
    ensures var f := Fetch(env.deltaResponses);
      if f.FetchedAll? then RunsOver(env, docs, cursor, f.messages, f.link)
      else RunOnce(env, docs, cursor) == (Aborted, docs, cursor)
  {
    var f := Fetch(env.deltaResponses);
    if f.FetchedAll? { RunProcesses(env, docs, cursor, f.messages); }
  }

  lemma RunProcesses(env: Env, docs: Docs, cursor: Option<nat>, ms: seq<Message>)
    requires !PlanOf(env, cursor).0.Stop? && PlanOf(env, cursor).0.messages == ms
    ensures RunsOver(env, docs, cursor, ms, PlanOf(env, cursor).0.link)
  {
    var n := if env.diesAfter.Some? && env.diesAfter.value <= |ms| then env.diesAfter.value else |ms|;
    assert ms[..|ms|] == ms;
    TallyAccountsForAll(ms, env.outcomes);
    forall id ensures Get(Effect(docs, ms[..n], env.outcomes), id) ==
                      var v := LastDone(ms[..n], env.outcomes, id); if v.Some? then v.value else Get(docs, id) {
      EffectOf(docs, ms[..n], env.outcomes, id);
    }
  }

  // ---------------------------------------------------------------- whole histories

  /** `base` is the knowledge base left by the last full sync that stored a link, with that link;
    * `stale` are the ids whose final change a run did not bring about although it moved the cursor
    * past that change; `calls` are the messages whose calls took effect since the baseline. */
  datatype State = State(
    docs: Docs,
    cursor: Option<nat>,
    log: seq<Message>,
    base: Option<(Docs, nat)>,
    stale: set<Id>,
    calls: seq<Message>)

  datatype Step = Arrive(message: Message) | Sync(env: Env)

  predicate Touches(m: Message, id: Id) {
    MessageId(m) == Some(id)
  }

  predicate Touched(ms: seq<Message>, id: Id) {
    exists i :: 0 <= i < |ms| && Touches(ms[i], id)
  }

  /** What the last message of `ms` about `id` asks for: None if there is none, Some(None) for a
    * removal. */
  function LastAsked(ms: seq<Message>, id: Id): Option<Option<string>> {
    if ms == [] then None
    else
      var n := |ms| - 1;
      if Touches(ms[n], id) then Some(if ms[n].removed then None else Some(ms[n].body))
      else LastAsked(ms[..n], id)
  }

  /** The same among the messages that took effect. */
  function LastDone(ms: seq<Message>, outcomes: seq<CallOutcome>, id: Id): Option<Option<string>> {
    if ms == [] then None
    else
      var n := |ms| - 1;
      if Touches(ms[n], id) && TookEffect(OutcomeAt(outcomes, n)) then
        Some(if ms[n].removed then None else Some(ms[n].body))
      else LastDone(ms[..n], outcomes, id)
  }

  ghost function Ids(ms: seq<Message>): set<Id> {
    set i | 0 <= i < |ms| && MessageId(ms[i]).Some? :: MessageId(ms[i]).value
  }

  lemma IdsAreTouched(ms: seq<Message>, id: Id)
    ensures id in Ids(ms) <==> Touched(ms, id)
  {
  }

  ghost function Missed(ms: seq<Message>, outcomes: seq<CallOutcome>): set<Id> {
    set id | id in Ids(ms) && LastDone(ms, outcomes, id) != LastAsked(ms, id)
  }

  ghost function Next(s: State, step: Step): State {
    match step
    case Arrive(m) => s.(log := s.log + [m])
    case Sync(env) =>
      var plan := PlanOf(env, s.cursor).0;
      var (r, docs, cursor) := RunOnce(env, s.docs, s.cursor);
      var moved := r.Completed? && r.link.Some? && env.cursorSaveOk;
      match plan
      case Stop => s.(cursor := cursor, base := if cursor == s.cursor then s.base else None)
      case Full(_, _) => State(docs, cursor, s.log, if moved then Some((docs, r.link.value)) else None, {}, [])
      case Delta(ms, _) =>
        State(docs, cursor, s.log, s.base,
              if moved then (s.stale - Ids(ms)) + Missed(ms, env.outcomes) else s.stale,
              s.calls + Effective(ms[..Processed(env, ms)], env.outcomes))
  }

  /** The run follows the stored link. */
  predicate UsesDelta(env: Env, cursor: Option<nat>) {
    !env.resetCursor && env.cursorReadOk && cursor.Some? && env.linkFound
  }

  /** The i-th response is a page with a next link. */
  predicate Continues(responses: seq<Response>, i: nat)
    requires i < |responses|
  {
    responses[i].Page? && responses[i].more
  }

  /** How many messages the first n responses hold. */
  function Offset(responses: seq<Response>, n: nat): nat
    requires n <= |responses|
  {
    if n == 0 then 0
    else Offset(responses, n - 1) + if responses[n - 1].Page? then |responses[n - 1].value| else 0
  }

  /** A page that a fetch from the stored link reaches holds the changes at its place in the log, and
    * its delta link, if it has one, stands behind them. */
  predicate HonestPage(env: Env, cursor: nat, log: seq<Message>, i: nat)
    requires i < |env.deltaResponses|
  {
    (forall j :: 0 <= j < i ==> Continues(env.deltaResponses, j)) && env.deltaResponses[i].Page? ==>
      var page := env.deltaResponses[i];
      var from := cursor + Offset(env.deltaResponses, i);
      && from + |page.value| <= |log| && page.value == log[from..from + |page.value|]
      && (!page.more && page.deltaLink.Some? ==> page.deltaLink.value == from + |page.value|)
  }

  predicate HonestPages(env: Env, cursor: nat, log: seq<Message>) {
    forall i :: 0 <= i < |env.deltaResponses| ==> HonestPage(env, cursor, log, i)
  }

  /** The server side of a step is honest: pages hold the changes after the stored link, and the first
    * link after a full sync is a position in the log. */
  predicate Honest(s: State, step: Step) {
    step.Sync? ==>
      && (UsesDelta(step.env, s.cursor) && s.cursor.value <= |s.log| ==>
            HonestPages(step.env, s.cursor.value, s.log))
      && (step.env.initialLink.Some? ==> step.env.initialLink.value <= |s.log|)
  }

  ghost predicate HonestRun(s: State, steps: seq<Step>)
    decreases |steps|
  {
    steps == [] || (Honest(s, steps[0]) && HonestRun(Next(s, steps[0]), steps[1..]))
  }

  ghost function RunAll(s: State, steps: seq<Step>): State
    decreases |steps|
  {
    if steps == [] then s else RunAll(Next(s, steps[0]), steps[1..])
  }

  function Get(docs: Docs, id: Id): Option<string> {
    if id in docs then Some(docs[id]) else None
  }

  /** The baseline with the change log applied up to position n. */
  ghost function Target(s: State, n: nat): Docs
    requires s.base.Some? && s.base.value.1 <= n <= |s.log|
  {
    Replay(s.base.value.0, s.log[s.base.value.1..n])
  }

  /** The knowledge base is right on every id that is not stale and that no change after the stored
    * link touches: what the replay of the next run will not repair is already correct. */
  ghost predicate Mirrors(s: State) {
    s.base.Some? ==>
      && s.cursor.Some? && s.base.value.1 <= s.cursor.value <= |s.log|
      && forall id :: id !in s.stale && !Touched(s.log[s.cursor.value..], id) ==>
           Get(s.docs, id) == Get(Target(s, s.cursor.value), id)
  }

  // ---------------------------------------------------------------- replay is tracked id by id

  lemma {:induction false} ReplayAppend(docs: Docs, a: seq<Message>, b: seq<Message>)
    ensures Replay(docs, a + b) == Replay(Replay(docs, a), b)
    decreases |b|
  {
    if b == [] {
      assert a + b == a;
    } else {
      var n := |b| - 1;
      assert (a + b)[..|a + b| - 1] == a + b[..n];
      ReplayAppend(docs, a, b[..n]);
    }
  }

  lemma {:induction false} EffectOf(docs: Docs, ms: seq<Message>, outcomes: seq<CallOutcome>, id: Id)
    ensures Get(Effect(docs, ms, outcomes), id) ==
            var v := LastDone(ms, outcomes, id);
            if v.Some? then v.value else Get(docs, id)
    decreases |ms|
  {
    if ms != [] { EffectOf(docs, ms[..|ms| - 1], outcomes, id); }
  }

  lemma {:induction false} ReplayOf(docs: Docs, ms: seq<Message>, id: Id)
    ensures Get(Replay(docs, ms), id) ==
            var v := LastAsked(ms, id);
            if v.Some? then v.value else Get(docs, id)
    decreases |ms|
  {
    if ms != [] { ReplayOf(docs, ms[..|ms| - 1], id); }
  }

  lemma {:induction false} AskedIffTouched(ms: seq<Message>, outcomes: seq<CallOutcome>, id: Id)
    ensures LastAsked(ms, id).Some? <==> Touched(ms, id)
    ensures LastDone(ms, outcomes, id).Some? ==> Touched(ms, id)
    decreases |ms|
  {
    if ms != [] {
      var n := |ms| - 1;
      AskedIffTouched(ms[..n], outcomes, id);
      assert forall i :: 0 <= i < n ==> ms[..n][i] == ms[i];
      if Touches(ms[n], id) {
        assert Touched(ms, id);
      } else if Touched(ms, id) {
        var i :| 0 <= i < |ms| && Touches(ms[i], id);
        assert Touches(ms[..n][i], id);
      }
    }
  }

  lemma UntouchedKept(docs: Docs, ms: seq<Message>, outcomes: seq<CallOutcome>, id: Id)
    requires !Touched(ms, id)
    ensures Get(Effect(docs, ms, outcomes), id) == Get(docs, id)
    ensures Get(Replay(docs, ms), id) == Get(docs, id)
  {
    AskedIffTouched(ms, outcomes, id);
    EffectOf(docs, ms, outcomes, id);
    ReplayOf(docs, ms, id);
  }

  lemma SameDocs(docs: Docs, docs': Docs)
    requires forall id :: Get(docs, id) == Get(docs', id)
    ensures docs == docs'
  {
    assert forall id :: id in docs <==> Get(docs, id).Some?;
    assert forall id :: id in docs' <==> Get(docs', id).Some?;
    assert forall id :: id in docs ==> docs[id] == Get(docs, id).value;
    assert forall id :: id in docs' ==> docs'[id] == Get(docs', id).value;
  }

  /** Exactly when a batch with failures does its job: it brings every knowledge base to where the
    * faultless batch would, if and only if for each id the last call that took effect asked for
    * the same thing as the last message. */
  lemma BatchIsFaithfulIff(ms: seq<Message>, outcomes: seq<CallOutcome>)
    ensures (forall docs :: Effect(docs, ms, outcomes) == Replay(docs, ms))
            <==> Missed(ms, outcomes) == {}
  {
    if Missed(ms, outcomes) == {} {
      forall docs: Docs ensures Effect(docs, ms, outcomes) == Replay(docs, ms) {
        forall id ensures Get(Effect(docs, ms, outcomes), id) == Get(Replay(docs, ms), id) {
          assert id !in Missed(ms, outcomes);
          IdsAreTouched(ms, id);
          AskedIffTouched(ms, outcomes, id);
          EffectOf(docs, ms, outcomes, id);
          ReplayOf(docs, ms, id);
        }
        SameDocs(Effect(docs, ms, outcomes), Replay(docs, ms));
      }
    } else {
      var id :| id in Missed(ms, outcomes);
      IdsAreTouched(ms, id);
      AskedIffTouched(ms, outcomes, id);
      var docs: Docs := if LastAsked(ms, id) == Some(None) then map[id := ""] else map[];
      EffectOf(docs, ms, outcomes, id);
      ReplayOf(docs, ms, id);
      assert Effect(docs, ms, outcomes) != Replay(docs, ms);
    }
  }

  lemma {:induction false} NoSkipsTakeEffect(ms: seq<Message>, outcomes: seq<CallOutcome>, id: Id)
    requires Tally(ms, outcomes).skips == []
    ensures LastDone(ms, outcomes, id) == LastAsked(ms, id)
    decreases |ms|
  {
    if ms != [] {
      var n := |ms| - 1;
      assert SkipOf(ms[n], OutcomeAt(outcomes, n)).None?;
      NoSkipsTakeEffect(ms[..n], outcomes, id);
    }
  }

  lemma TouchedInPart(log: seq<Message>, from: nat, to: nat, id: Id)
    requires from <= to <= |log|
    ensures Touched(log[from..], id) <==> Touched(log[from..to], id) || Touched(log[to..], id)
  {
    if Touched(log[from..], id) {
      var i :| 0 <= i < |log[from..]| && Touches(log[from..][i], id);
      if from + i < to {
        assert Touches(log[from..to][i], id);
      } else {
        assert Touches(log[to..][from + i - to], id);
      }
    }
    if Touched(log[from..to], id) {
      var i :| 0 <= i < |log[from..to]| && Touches(log[from..to][i], id);
      assert Touches(log[from..][i], id);
    }
    if Touched(log[to..], id) {
      var i :| 0 <= i < |log[to..]| && Touches(log[to..][i], id);
      assert Touches(log[from..][to - from + i], id);
    }
  }

  // ---------------------------------------------------------------- every step keeps the mirror

  /** A delta run that moves the cursor from c to q. */
  lemma MovedRunMirrors(s: State, ms: seq<Message>, outcomes: seq<CallOutcome>, q: nat, id: Id)
    requires Mirrors(s) && s.base.Some?
    requires s.cursor.value <= q <= |s.log| && ms == s.log[s.cursor.value..q]
    requires id !in (s.stale - Ids(ms)) + Missed(ms, outcomes) && !Touched(s.log[q..], id)
    ensures Get(Effect(s.docs, ms, outcomes), id) == Get(Target(s, q), id)
  {
    var c := s.cursor.value;
    IdsAreTouched(ms, id);
    assert s.log[s.base.value.1..q] == s.log[s.base.value.1..c] + ms;
    ReplayAppend(s.base.value.0, s.log[s.base.value.1..c], ms);
    if Touched(ms, id) {
      AskedIffTouched(ms, outcomes, id);
      EffectOf(s.docs, ms, outcomes, id);
      ReplayOf(Target(s, c), ms, id);
    } else {
      TouchedInPart(s.log, c, q, id);
      UntouchedKept(s.docs, ms, outcomes, id);
      UntouchedKept(Target(s, c), ms, outcomes, id);
    }
  }

  /** A delta run that leaves the cursor where it was, wherever it stopped. */
  lemma UnmovedRunMirrors(s: State, part: seq<Message>, outcomes: seq<CallOutcome>, id: Id)
    requires Mirrors(s) && s.base.Some?
    requires s.cursor.value + |part| <= |s.log|
    requires part == s.log[s.cursor.value..s.cursor.value + |part|]
    requires id !in s.stale && !Touched(s.log[s.cursor.value..], id)
    ensures Get(Effect(s.docs, part, outcomes), id) == Get(Target(s, s.cursor.value), id)
  {
    TouchedInPart(s.log, s.cursor.value, s.cursor.value + |part|, id);
    UntouchedKept(s.docs, part, outcomes, id);
  }

  /** From an honest server a delta run fetches the changes after its link, up to the new one. */
  lemma HonestMeans(s: State, env: Env)
    requires Honest(s, Sync(env)) && PlanOf(env, s.cursor).0.Delta? && s.cursor.value <= |s.log|
    ensures var plan := PlanOf(env, s.cursor).0;
      var end := s.cursor.value + |plan.messages|;
      && end <= |s.log| && plan.messages == s.log[s.cursor.value..end]
      && (plan.link.Some? ==> plan.link.value == end)
  {
    var f := Fetch(env.deltaResponses);
    assert f.FetchedAll? && f.messages == PlanOf(env, s.cursor).0.messages && f.link == PlanOf(env, s.cursor).0.link;
    hide PlanOf, Fetch;
    HonestFetch(env, s.cursor.value, s.log);
  }

  lemma HonestFetch(env: Env, c: nat, log: seq<Message>)
    requires c <= |log| && Fetch(env.deltaResponses).FetchedAll? && HonestPages(env, c, log)
    ensures var f := Fetch(env.deltaResponses);
      && c + |f.messages| <= |log| && f.messages == log[c..c + |f.messages|]
      && (f.link.Some? ==> f.link.value == c + |f.messages|)
  {
    var responses := env.deltaResponses;
    var f := Fetch(responses);
    var k := LastReached(responses);
    FetchIs(responses, k);
    if k > 0 { assert Continues(responses, k - 1); }
    hide Fetch, Joined, HonestPages, Continues;
    if responses[k].Page? {
      PagesAreLog(env, c, log, k + 1, f.messages);
      LastLink(env, c, log, k, f.messages);
    } else {
      PagesAreLog(env, c, log, k, f.messages);
    }
  }

  lemma LastLink(env: Env, c: nat, log: seq<Message>, k: nat, ms: seq<Message>)
    requires k < |env.deltaResponses| && env.deltaResponses[k].Page? && !Continues(env.deltaResponses, k)
    requires HonestPages(env, c, log) && forall i :: 0 <= i < k ==> Continues(env.deltaResponses, i)
    requires Joined(env.deltaResponses, k + 1, ms)
    ensures env.deltaResponses[k].deltaLink.Some? ==> env.deltaResponses[k].deltaLink.value == c + |ms|
  {
    assert HonestPage(env, c, log, k);
  }

  /** The response at which fetching stops. */
  lemma LastReached(responses: seq<Response>) returns (k: nat)
    ensures k <= |responses| && (forall i :: 0 <= i < k ==> Continues(responses, i))
    ensures k < |responses| ==> !Continues(responses, k)
  {
    k := 0;
    while k < |responses| && Continues(responses, k)
      invariant k <= |responses| && forall i :: 0 <= i < k ==> Continues(responses, i)
    {
      k := k + 1;
    }
  }

  lemma PageIsLog(env: Env, c: nat, log: seq<Message>, i: nat)
    requires i < |env.deltaResponses| && env.deltaResponses[i].Page? && HonestPages(env, c, log)
    requires forall j :: 0 <= j < i ==> Continues(env.deltaResponses, j)
    ensures var from, page := c + Offset(env.deltaResponses, i), env.deltaResponses[i].value;
      from + |page| <= |log| && page == log[from..from + |page|]
  {
    assert HonestPage(env, c, log, i);
  }

  lemma JoinSlices(log: seq<Message>, c: nat, init: seq<Message>, page: seq<Message>)
    requires c + |init| + |page| <= |log|
    requires init == log[c..c + |init|] && page == log[c + |init|..c + |init| + |page|]
    ensures init + page == log[c..c + |init + page|]
  {
  }

  /** The i-th page at its place among the messages. */
  lemma PageInPlace(responses: seq<Response>, n: nat, ms: seq<Message>, i: nat)
    requires i < n <= |responses| && responses[i].Page? && Joined(responses, n, ms)
    ensures var at, next := Offset(responses, i), Offset(responses, i + 1);
      at + |responses[i].value| == next <= |ms| && ms[..next] == ms[..at] + responses[i].value
  {
    var at, next := Offset(responses, i), Offset(responses, i + 1);
    assert ms[at..next] == responses[i].value;
    assert ms[..next] == ms[..at] + ms[at..next];
  }

  lemma {:induction false} PrefixIsLog(env: Env, c: nat, log: seq<Message>, n: nat, ms: seq<Message>, k: nat)
    requires c <= |log| && k <= n <= |env.deltaResponses| && Joined(env.deltaResponses, n, ms) && HonestPages(env, c, log)
    requires forall i :: 0 <= i < n ==> env.deltaResponses[i].Page?
    requires forall i :: 0 <= i < n - 1 ==> Continues(env.deltaResponses, i)
    ensures var m := Offset(env.deltaResponses, k);
      m <= |ms| && c + m <= |log| && ms[..m] == log[c..c + m]
    decreases k
  {
    hide Joined, HonestPages, Continues;
    if k > 0 {
      PrefixIsLog(env, c, log, n, ms, k - 1);
      PageInPlace(env.deltaResponses, n, ms, k - 1);
      PageIsLog(env, c, log, k - 1);
      JoinSlices(log, c, ms[..Offset(env.deltaResponses, k - 1)], env.deltaResponses[k - 1].value);
    }
  }

  lemma PagesAreLog(env: Env, c: nat, log: seq<Message>, n: nat, ms: seq<Message>)
    requires c <= |log| && n <= |env.deltaResponses| && Joined(env.deltaResponses, n, ms) && HonestPages(env, c, log)
    requires n > 0 ==> env.deltaResponses[n - 1].Page?
    requires forall i :: 0 <= i < n - 1 ==> Continues(env.deltaResponses, i)
    ensures c + |ms| <= |log| && ms == log[c..c + |ms|]
  {
    forall i | 0 <= i < n ensures env.deltaResponses[i].Page? {
      if i < n - 1 { ContinuesIsPage(env.deltaResponses, i); }
    }
    assert |ms| == Offset(env.deltaResponses, n) && ms[..|ms|] == ms;
    hide Joined, HonestPages, Continues, Offset;
    PrefixIsLog(env, c, log, n, ms, n);
  }

  lemma ContinuesIsPage(responses: seq<Response>, i: nat)
    requires i < |responses| && Continues(responses, i)
    ensures responses[i].Page?
  {
  }

  lemma ArrivalKeepsMirror(s: State, m: Message)
    requires Mirrors(s)
    ensures Mirrors(Next(s, Arrive(m)))
  {
    var t := Next(s, Arrive(m));
    if s.base.Some? {
      var c := s.cursor.value;
      assert t.log[s.base.value.1..c] == s.log[s.base.value.1..c];
      forall id | id !in t.stale && !Touched(t.log[c..], id)
        ensures Get(t.docs, id) == Get(Target(t, c), id)
      {
        TouchedInPart(t.log, c, |s.log|, id);
        assert t.log[c..|s.log|] == s.log[c..];
      }
    }
  }

  lemma SyncKeepsMirror(s: State, env: Env)
    requires Mirrors(s) && Honest(s, Sync(env))
    ensures Mirrors(Next(s, Sync(env)))
  {
    var t := Next(s, Sync(env));
    var plan := PlanOf(env, s.cursor).0;
    if plan.Delta? && s.base.Some? {
      HonestMeans(s, env);
      var c, ms := s.cursor.value, plan.messages;
      var part := ms[..Processed(env, ms)];
      assert part == s.log[c..c + |part|];
      if t.cursor == s.cursor {
        if !Dies(env, ms) && plan.link.Some? && env.cursorSaveOk {
          assert ms == [] && part == [];
          assert Ids(ms) == {} && Missed(ms, env.outcomes) == {};
        }
        forall id | id !in t.stale && !Touched(t.log[c..], id)
          ensures Get(t.docs, id) == Get(Target(t, c), id)
        {
          UnmovedRunMirrors(s, part, env.outcomes, id);
        }
      } else {
        assert part == ms;
        var q := t.cursor.value;
        forall id | id !in t.stale && !Touched(t.log[q..], id)
          ensures Get(t.docs, id) == Get(Target(t, q), id)
        {
          MovedRunMirrors(s, ms, env.outcomes, q, id);
        }
      }
    } else if plan.Full? && t.base.Some? {
      assert t.log[t.cursor.value..t.cursor.value] == [];
    }
  }

  lemma {:induction false} HistoryKeepsMirror(s: State, steps: seq<Step>)
    requires Mirrors(s) && HonestRun(s, steps)
    ensures Mirrors(RunAll(s, steps))
    decreases |steps|
  {
    if steps != [] {
      if steps[0].Arrive? {
        ArrivalKeepsMirror(s, steps[0].message);
      } else {
        SyncKeepsMirror(s, steps[0].env);
      }
      HistoryKeepsMirror(Next(s, steps[0]), steps[1..]);
    }
  }

  // ---------------------------------------------------------------- exactly once in effect

  /** A delta run that moves the cursor although it skipped a message. */
  predicate AdvancesOverSkips(s: State, step: Step) {
    step.Sync? && PlanOf(step.env, s.cursor).0.Delta? &&
    var r := RunOnce(step.env, s.docs, s.cursor).0;
    r.Completed? && r.link.Some? && step.env.cursorSaveOk && r.summary.skips != []
  }

  ghost predicate NeverAdvancesOverSkips(s: State, steps: seq<Step>)
    decreases |steps|
  {
    steps == [] || (!AdvancesOverSkips(s, steps[0]) && NeverAdvancesOverSkips(Next(s, steps[0]), steps[1..]))
  }

  lemma {:induction false} NothingStale(s: State, steps: seq<Step>)
    requires s.stale == {} && NeverAdvancesOverSkips(s, steps)
    ensures RunAll(s, steps).stale == {}
    decreases |steps|
  {
    if steps != [] {
      if steps[0].Sync? {
        var env := steps[0].env;
        var plan := PlanOf(env, s.cursor).0;
        var r := RunOnce(env, s.docs, s.cursor).0;
        if plan.Delta? && r.Completed? && r.link.Some? && env.cursorSaveOk {
          var ms := plan.messages;
          assert ms[..|ms|] == ms;
          forall id ensures LastDone(ms, env.outcomes, id) == LastAsked(ms, id) {
            NoSkipsTakeEffect(ms, env.outcomes, id);
          }
        }
      }
      NothingStale(Next(s, steps[0]), steps[1..]);
    }
  }

  /** A delta run that completes, whether or not its cursor save succeeds, leaves the knowledge base
    * equal to the baseline with the change log applied up to its link, except on the ids it missed,
    * on stale ids it did not see and on ids that earlier runs took from beyond that link. */
  lemma CleanRunCatchesUp(s: State, env: Env, id: Id)
    requires Mirrors(s) && s.base.Some? && Honest(s, Sync(env))
    requires PlanOf(env, s.cursor).0.Delta?
    requires var r := RunOnce(env, s.docs, s.cursor).0;
      r.Completed? && r.link.Some?
    requires id !in Missed(PlanOf(env, s.cursor).0.messages, env.outcomes)
    requires id !in s.stale || Touched(PlanOf(env, s.cursor).0.messages, id)
    ensures var r := RunOnce(env, s.docs, s.cursor);
      && s.base.value.1 <= r.0.link.value <= |s.log|
      && (!Touched(s.log[r.0.link.value..], id) ==>
            Get(r.1, id) == Get(Target(s, r.0.link.value), id))
  {
    var (r, docs, _) := RunOnce(env, s.docs, s.cursor);
    var ms := PlanOf(env, s.cursor).0.messages;
    HonestMeans(s, env);
    assert ms[..|ms|] == ms;
    var q := r.link.value;
    IdsAreTouched(ms, id);
    if !Touched(s.log[q..], id) {
      MovedRunMirrors(s, ms, env.outcomes, q, id);
    }
  }

  /** A batch without skips misses nothing. */
  lemma NoSkipsMissNothing(ms: seq<Message>, outcomes: seq<CallOutcome>)
    requires Tally(ms, outcomes).skips == []
    ensures Missed(ms, outcomes) == {}
  {
    forall id ensures LastDone(ms, outcomes, id) == LastAsked(ms, id) {
      NoSkipsTakeEffect(ms, outcomes, id);
    }
  }

  /** Exactly once in effect.  Take any history of arrivals, failed fetches, half-finished runs, lost
    * cursor saves, skips and replays.  A further delta run that reaches the end of the log, misses
    * nothing and touches every id that is stale by then, leaves the knowledge base equal to the
    * baseline with every change since applied once, in order. */
  lemma ExactlyOnceInEffect(s: State, steps: seq<Step>, env: Env)
    requires Mirrors(s) && HonestRun(s, steps)
    requires var e := RunAll(s, steps);
      && e.base.Some? && Honest(e, Sync(env)) && PlanOf(env, e.cursor).0.Delta?
      && var r, ms := RunOnce(env, e.docs, e.cursor).0, PlanOf(env, e.cursor).0.messages;
      && r.Completed? && r.link == Some(|e.log|)
      && Missed(ms, env.outcomes) == {} && e.stale <= Ids(ms)
    ensures var e := RunAll(s, steps);
      && e.base.value.1 <= |e.log|
      && RunOnce(env, e.docs, e.cursor).1 == Replay(e.base.value.0, e.log[e.base.value.1..])
  {
    var e := RunAll(s, steps);
    HistoryKeepsMirror(s, steps);
    var docs, want := RunOnce(env, e.docs, e.cursor).1, Target(e, |e.log|);
    assert e.log[e.base.value.1..|e.log|] == e.log[e.base.value.1..];
    forall id ensures Get(docs, id) == Get(want, id) {
      IdsAreTouched(PlanOf(env, e.cursor).0.messages, id);
      CleanRunCatchesUp(e, env, id);
    }
    SameDocs(docs, want);
  }

  /** In particular where no run moved the cursor over a skip and the last run skips nothing. */
  lemma ExactlyOnceWithoutSkips(s: State, steps: seq<Step>, env: Env)
    requires Mirrors(s) && s.stale == {} && HonestRun(s, steps) && NeverAdvancesOverSkips(s, steps)
    requires var e := RunAll(s, steps);
      && e.base.Some? && Honest(e, Sync(env)) && PlanOf(env, e.cursor).0.Delta?
      && var r := RunOnce(env, e.docs, e.cursor).0;
      r.Completed? && r.link == Some(|e.log|) && r.summary.skips == []
    ensures var e := RunAll(s, steps);
      && e.base.value.1 <= |e.log|
      && RunOnce(env, e.docs, e.cursor).1 == Replay(e.base.value.0, e.log[e.base.value.1..])
  {
    var e := RunAll(s, steps);
    var ms := PlanOf(env, e.cursor).0.messages;
    assert ms[..|ms|] == ms;
    NothingStale(s, steps);
    NoSkipsMissNothing(ms, env.outcomes);
    ExactlyOnceInEffect(s, steps, env);
  }

  // ---------------------------------------------------------------- whole histories, exactly

  /** The knowledge base is the baseline with the effective calls since then replayed. */
  ghost predicate FromCalls(s: State) {
    s.base.Some? ==> s.docs == Replay(s.base.value.0, s.calls)
  }

  lemma {:induction false} EffectIsReplay(docs: Docs, ms: seq<Message>, outcomes: seq<CallOutcome>)
    ensures Effect(docs, ms, outcomes) == Replay(docs, Effective(ms, outcomes))
    decreases |ms|
  {
    if ms != [] {
      var n := |ms| - 1;
      EffectIsReplay(docs, ms[..n], outcomes);
      var before := Effective(ms[..n], outcomes);
      assert (before + [ms[n]])[..|before|] == before;
    }
  }

  lemma {:induction false} HistoryIsFromCalls(s: State, steps: seq<Step>)
    requires FromCalls(s)
    ensures FromCalls(RunAll(s, steps))
    decreases |steps|
  {
    if steps != [] {
      var t := Next(s, steps[0]);
      if steps[0].Sync? && s.base.Some? {
        var env := steps[0].env;
        var plan := PlanOf(env, s.cursor).0;
        if plan.Delta? {
          var ms := plan.messages[..Processed(env, plan.messages)];
          EffectIsReplay(s.docs, ms, env.outcomes);
          ReplayAppend(s.base.value.0, s.calls, Effective(ms, env.outcomes));
        }
      }
      HistoryIsFromCalls(t, steps[1..]);
    }
  }

  /** Two message lists do the same to every knowledge base if and only if they ask for the same thing
    * last, id by id. */
  lemma ReplaysAgreeIff(a: seq<Message>, b: seq<Message>)
    ensures (forall docs :: Replay(docs, a) == Replay(docs, b)) <==> (forall id :: LastAsked(a, id) == LastAsked(b, id))
  {
    if forall id :: LastAsked(a, id) == LastAsked(b, id) {
      forall docs: Docs ensures Replay(docs, a) == Replay(docs, b) {
        forall id ensures Get(Replay(docs, a), id) == Get(Replay(docs, b), id) {
          ReplayOf(docs, a, id);
          ReplayOf(docs, b, id);
        }
        SameDocs(Replay(docs, a), Replay(docs, b));
      }
    } else {
      var id :| LastAsked(a, id) != LastAsked(b, id);
      var asked := if LastAsked(a, id).Some? then LastAsked(a, id).value else LastAsked(b, id).value;
      var docs: Docs := if asked.None? then map[id := ""] else map[];
      ReplayOf(docs, a, id);
      ReplayOf(docs, b, id);
      assert Replay(docs, a) != Replay(docs, b);
    }
  }

  /** Exactly when a history has done its job, whatever failed, was skipped or was replayed on the
    * way: the calls that took effect since the baseline do to every baseline what the change log
    * does, if and only if for each id the last effective call asked what the last change asks. */
  lemma HistoryIsFaithfulIff(s: State, steps: seq<Step>)
    requires Mirrors(s) && FromCalls(s) && HonestRun(s, steps) && RunAll(s, steps).base.Some?
    ensures var e := RunAll(s, steps);
      && e.docs == Replay(e.base.value.0, e.calls)
      && e.base.value.1 <= |e.log|
      && var changes := e.log[e.base.value.1..];
      (forall docs :: Replay(docs, e.calls) == Replay(docs, changes))
      <==> (forall id :: LastAsked(e.calls, id) == LastAsked(changes, id))
  {
    var e := RunAll(s, steps);
    HistoryIsFromCalls(s, steps);
    HistoryKeepsMirror(s, steps);
    ReplaysAgreeIff(e.calls, e.log[e.base.value.1..]);
  }

  /** The condition matters.  A run that skips the only change of an id and still stores its link
    * loses that change for good: the next run, complete and without skips, does not repair it. */
  lemma SkipThenAdvanceLosesAChange(docs: Docs, id: Id, body: string)
    requires id != "" && Get(docs, id) != Some(body)
    ensures var m := Message(false, Some(id), body);
      var s := State(docs, Some(0), [m], Some((docs, 0)), {}, []);
      var skipping := Env(false, true, true, [Page([m], false, Some(1))], true, None, None, [Failed(false)], None, true);
      var clean := skipping.(deltaResponses := [Page([], false, Some(1))], outcomes := []);
      && Mirrors(s) && HonestRun(s, [Sync(skipping), Sync(clean)])
      && var e := RunAll(s, [Sync(skipping), Sync(clean)]);
      && RunOnce(clean, Next(s, Sync(skipping)).docs, Some(1)).0 == Completed(Summary(0, 0, []), Some(1))
      && e.docs == docs
      && e.docs != Replay(docs, [m])
  {
    var m := Message(false, Some(id), body);
    var s := State(docs, Some(0), [m], Some((docs, 0)), {}, []);
    var skipping := Env(false, true, true, [Page([m], false, Some(1))], true, None, None, [Failed(false)], None, true);
    var clean := skipping.(deltaResponses := [Page([], false, Some(1))], outcomes := []);
    assert s.log[0..0] == [] && [m][..1] == [m] && [m][..0] == [] && [m][0..1] == [m];
    assert Effect(docs, [m], [Failed(false)]) == docs;
    var s1 := Next(s, Sync(skipping));
    assert s1.docs == docs && s1.cursor == Some(1) && s1.log == [m];
    assert [m][1..1] == [];
    var steps := [Sync(skipping), Sync(clean)];
    assert steps[1..] == [Sync(clean)] && [Sync(clean)][1..] == [];
    var s2 := Next(s1, Sync(clean));
    assert s2.docs == docs;
    assert RunAll(s, steps) == RunAll(s1, [Sync(clean)]) == RunAll(s2, []) == s2;
    assert HonestRun(s1, [Sync(clean)]) by {
      assert HonestRun(s2, []);
    }
    assert Replay(docs, [m]) == docs[id := body];
  }
}
