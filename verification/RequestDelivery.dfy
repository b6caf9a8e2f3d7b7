/**
Delivering the email of one integration request. Any number of requests and background drains may try
at the same time; each step is one ledger update, one ledger read or one call of the email provider,
and a process may stop between any two of them.
*/
module RequestDelivery {
  import opened Wrappers
  import opened OperationLedger

  const KIND := "integration.connection_request.email"

  /** What the ledger's result column holds: the message to send, or what became of it. */
  datatype Evidence = Payload | Terminal(deliveryStatus: string, messageId: Option<string>)

  /** How a call of the provider ended. */
  datatype Delivery = Accepted(messageId: string) | Refused | Ambiguous

  datatype Answer = Sent | InProgress | Rejected | Unknown

  /** A dispatcher, by what it has done so far. */
  datatype Worker =
    | Idle
    | Lost                              // its claim found another status
    | Claimed
    | Ready                             // it has read the payload
    | NoPayload                         // it has read something else
    | Delivered(messageId: string)
    | Turned(ambiguous: bool)           // the provider refused, or nobody knows
    | FinalizeThrew(messageId: string)
    | Done(answer: Answer)
    | Crashed

  datatype System = System(op: Operation<Evidence>, workers: seq<Worker>, deliveries: seq<Delivery>, reconciled: bool)

  // ---------------------------------------------------------------------------------------------
  // The updates of the service.

  function NoChange(): Update<Evidence> {
    Update(None, None, None, None, None, None, Keep, Keep)
  }

  function ClaimUpdate(now: int): Update<Evidence> {
    Update(Some("STARTED"), Some(1), Some(now), None, None, None, Set(None), Set(None))
  }

  /** An empty message id is not recorded. */
  function Recorded(id: string): Option<string> {
    if id == "" then None else Some(id)
  }

  function FinalizeUpdate(id: string, now: int): Update<Evidence> {
    Update(Some("SUCCEEDED"), None, None, Some(now), Some(Terminal("SENT", Recorded(id))), Some(id), Set(None),
        Set(None))
  }

  function FailureUpdate(rejected: bool, id: Option<string>, now: int): Update<Evidence> {
    Update(Some(if rejected then "FAILED" else "UNKNOWN"), None, None, Some(now),
           Some(Terminal(if rejected then "FAILED" else "UNKNOWN", if id.Some? then Recorded(id.value) else None)),
           id, Set(Some("code")), Set(Some("message")))
  }

  /** The second update after a failed finalisation: it records the reference and leaves the status. */
  function ReferenceUpdate(id: string): Update<Evidence> {
    NoChange().(result := Some(Terminal("UNKNOWN", Some(id))), externalReference := Some(id),
        errorCode := Set(Some("code")), errorMessage := Set(Some("message")))
  }

  /** An operator's confirmation of what the provider says. */
  function ReconcileUpdate(succeeded: bool, now: int): Update<Evidence> {
    NoChange().(status := Some(if succeeded then "SUCCEEDED" else "FAILED"), completedAt := Some(now),
                errorCode := Set(if succeeded then None else Some("OPERATOR_PROVIDER_CONFIRMED_FAILED")),
                errorMessage := Set(None))
  }

  /** A compare-and-set on the operation. */
  function Cas(op: Operation<Evidence>, from: string, d: Update<Evidence>): Operation<Evidence> {
    if op.status == from then Changed(op, d) else op
  }

  function AnswerOf(status: string): Answer {
    if status == "SUCCEEDED" then Sent
    else if status == "FAILED" then Rejected
    else if status == "REQUESTED" || status == "STARTED" then InProgress
    else Unknown
  }

  // ---------------------------------------------------------------------------------------------
  // The steps.

  datatype Event =
    | Arrive
    | Claim(w: nat, now: int)
    | ReadState(w: nat)
    | Load(w: nat)
    | Send(w: nat, outcome: Delivery)
    | Finalize(w: nat, commits: bool, answers: bool, now: int)
    | MarkNoPayload(w: nat, now: int)
    | MarkTurned(w: nat, now: int)
    | MarkThrew(w: nat, commits: bool, now: int)
    | Sweep(now: int)                   // a drain or a waiting request gives up on a started operation
    | Reconcile(succeeded: bool, now: int)
    | Crash(w: nat)

  predicate Enabled(s: System, e: Event) {
    match e
    case Arrive => true
    case Sweep(_) => true
    case Reconcile(_, _) => s.op.status == "UNKNOWN"
    case Claim(w, _) => w < |s.workers| && s.workers[w].Idle?
    case ReadState(w) => w < |s.workers| && s.workers[w].Lost?
    case Load(w) => w < |s.workers| && s.workers[w].Claimed?
    case Send(w, _) => w < |s.workers| && s.workers[w].Ready?
    case Finalize(w, _, _, _) => w < |s.workers| && s.workers[w].Delivered?
    case MarkNoPayload(w, _) => w < |s.workers| && s.workers[w].NoPayload?
    case MarkTurned(w, _) => w < |s.workers| && s.workers[w].Turned?
    case MarkThrew(w, _, _) => w < |s.workers| && s.workers[w].FinalizeThrew?
    case Crash(w) => w < |s.workers|
  }

  /** The operation after an event. */
  function OpAfter(s: System, e: Event): Operation<Evidence>
    requires Enabled(s, e)
  {
    match e
    case Claim(_, now) => Cas(s.op, "REQUESTED", ClaimUpdate(now))
    case Finalize(w, commits, _, now) =>
      if commits then Cas(s.op, "STARTED", FinalizeUpdate(s.workers[w].messageId, now)) else s.op
    case MarkNoPayload(_, now) => Cas(s.op, "STARTED", FailureUpdate(true, None, now))
    case MarkTurned(w, now) => Cas(s.op, "STARTED", FailureUpdate(!s.workers[w].ambiguous, None, now))
    case MarkThrew(w, commits, now) =>
      if !commits then s.op
      else if s.op.status == "STARTED" then Changed(s.op, FailureUpdate(false, Some(s.workers[w].messageId), now))
      else if s.workers[w].messageId == "" then s.op
      else Cas(s.op, "UNKNOWN", ReferenceUpdate(s.workers[w].messageId))
    case Sweep(now) => Cas(s.op, "STARTED", FailureUpdate(false, None, now))
    case Reconcile(succeeded, now) => Changed(s.op, ReconcileUpdate(succeeded, now))
    case _ => s.op
  }

  /** The worker after its event. */
  function WorkerAfter(s: System, e: Event): Worker
    requires Enabled(s, e) && !e.Arrive? && !e.Sweep? && !e.Reconcile?
  {
    match e
    case Claim(_, _) => if s.op.status == "REQUESTED" then Claimed else Lost
    case ReadState(_) => Done(AnswerOf(s.op.status))
    case Load(_) => if s.op.result.Payload? then Ready else NoPayload
    case Send(_, outcome) =>
      (match outcome
       case Accepted(id) => Delivered(id)
       case Refused => Turned(false)
       case Ambiguous => Turned(true))
    case Finalize(w, commits, answers, _) =>
      if s.op.status == "STARTED" && commits && answers then Done(Sent) else FinalizeThrew(s.workers[w].messageId)
    case MarkNoPayload(_, _) => Done(Rejected)
    case MarkTurned(w, _) => Done(if s.workers[w].ambiguous then Unknown else Rejected)
    case MarkThrew(_, _, _) => Done(Unknown)
    case Crash(_) => Crashed
  }

  function Apply(s: System, e: Event): System
    requires Enabled(s, e)
  {
    var op := OpAfter(s, e);
    match e
    case Arrive => s.(workers := s.workers + [Idle])
    case Sweep(_) => s.(op := op)
    case Reconcile(_, _) => s.(op := op, reconciled := true)
    case Send(w, outcome) => s.(workers := s.workers[w := WorkerAfter(s, e)], deliveries := s.deliveries + [outcome])
    case _ => s.(op := op, workers := s.workers[e.w := WorkerAfter(s, e)])
  }

  /** A request that has just been stored. */
  ghost predicate Init(s: System) {
    && s.op.operationKind == KIND && s.op.status == "REQUESTED" && s.op.result.Payload?
    && s.op.attemptCount == 0 && s.op.externalReference == None && s.op.startedAt == None && s.op.completedAt == None
    && s.op.errorCode == None && s.op.errorMessage == None
    && s.workers == [] && s.deliveries == [] && !s.reconciled
  }

  ghost predicate Reaches(s: System, events: seq<Event>, s': System)
    decreases |events|
  {
    if events == [] then s == s'
    else Enabled(s, events[0]) && Reaches(Apply(s, events[0]), events[1..], s')
  }

  // ---------------------------------------------------------------------------------------------
  // The invariant.

  predicate BeforeSending(w: Worker) {
    w.Claimed? || w.Ready? || w.NoPayload?
  }

  predicate AfterSending(w: Worker) {
    w.Delivered? || w.Turned? || w.FinalizeThrew?
  }

  predicate Holder(w: Worker) {
    BeforeSending(w) || AfterSending(w)
  }

  /** Nobody still works on the operation. */
  ghost predicate NoHolder(s: System) {
    forall i :: 0 <= i < |s.workers| ==> !Holder(s.workers[i])
  }

  ghost predicate OneHolder(s: System) {
    forall i, j :: 0 <= i < j < |s.workers| ==> !(Holder(s.workers[i]) && Holder(s.workers[j]))
  }

  /** What a worker knows about the deliveries. */
  ghost predicate WorkerFits(s: System, w: Worker) {
    match w
    case Delivered(id) => s.deliveries == [Accepted(id)]
    case FinalizeThrew(id) => s.deliveries == [Accepted(id)]
    case Turned(ambiguous) => s.deliveries == [if ambiguous then Ambiguous else Refused]
    case Done(answer) =>
      && (answer == Sent ==> s.op.status == "SUCCEEDED")
      && (answer == Rejected ==> s.op.status != "REQUESTED")
      && (answer == Rejected && !s.reconciled ==> NoHolder(s) && NotDelivered(s))
    case NoPayload => s.deliveries == [] && s.op.status != "STARTED"
    case _ => BeforeSending(w) ==> s.deliveries == []
  }

  ghost predicate NotDelivered(s: System) {
    s.deliveries == [] || s.deliveries == [Refused]
  }

  ghost predicate OpFits(s: System) {
    && |s.deliveries| <= 1
    && (s.op.status == "REQUESTED" ==>
          s.op.result.Payload? && s.op.attemptCount == 0 && s.deliveries == [] && NoHolder(s) && !s.reconciled)
    && (s.op.status != "REQUESTED" ==> s.op.attemptCount == 1)
    && s.op.status in {"REQUESTED", "STARTED", "SUCCEEDED", "FAILED", "UNKNOWN"}
    && (s.op.status == "STARTED" ==> s.op.result.Payload?)
    && (s.op.status == "SUCCEEDED" && !s.reconciled ==>
          && |s.deliveries| == 1 && s.deliveries[0].Accepted?
          && s.op.result == Terminal("SENT", Recorded(s.deliveries[0].messageId)))
    && (s.op.status == "FAILED" && !s.reconciled ==> NotDelivered(s) && NoHolder(s))
    && (s.op.externalReference.Some? ==> s.deliveries == [Accepted(s.op.externalReference.value)])
  }

  ghost predicate Inv(s: System) {
    && OpFits(s)
    && OneHolder(s)
    && forall i :: 0 <= i < |s.workers| ==> WorkerFits(s, s.workers[i])
  }

  /** After an event of one worker: the other workers are as before. */
  lemma HoldersAfter(s: System, s': System, w: nat, worker: Worker)
    requires w < |s.workers| && s'.workers == s.workers[w := worker] && OneHolder(s)
    requires Holder(worker) ==> Holder(s.workers[w]) || NoHolder(s)
    ensures OneHolder(s')
    ensures Holder(s.workers[w]) && !Holder(worker) ==> NoHolder(s')
    ensures NoHolder(s) && !Holder(worker) ==> NoHolder(s')
  {
    assert forall i :: 0 <= i < |s.workers| && i != w ==> s'.workers[i] == s.workers[i];
  }

  lemma ClaimKeeps(s: System, e: Event)
    requires Inv(s) && Enabled(s, e) && e.Claim?
    ensures Inv(Apply(s, e))
  {
    var s' := Apply(s, e);
    HoldersAfter(s, s', e.w, WorkerAfter(s, e));
  }

  lemma QuietKeeps(s: System, e: Event)
    requires Inv(s) && Enabled(s, e) && (e.ReadState? || e.Load? || e.Crash?)
    ensures Inv(Apply(s, e))
  {
    var s' := Apply(s, e);
    HoldersAfter(s, s', e.w, WorkerAfter(s, e));
  }

  lemma SendKeeps(s: System, e: Event)
    requires Inv(s) && Enabled(s, e) && e.Send?
    ensures Inv(Apply(s, e))
  {
    var s' := Apply(s, e);
    HoldersAfter(s, s', e.w, WorkerAfter(s, e));
    assert WorkerFits(s, s.workers[e.w]);
  }

  lemma FinalizeKeeps(s: System, e: Event)
    requires Inv(s) && Enabled(s, e) && e.Finalize?
    ensures Inv(Apply(s, e))
  {
    var s' := Apply(s, e);
    HoldersAfter(s, s', e.w, WorkerAfter(s, e));
    assert WorkerFits(s, s.workers[e.w]);
  }

  lemma MarkKeeps(s: System, e: Event)
    requires Inv(s) && Enabled(s, e) && (e.MarkNoPayload? || e.MarkTurned?)
    ensures Inv(Apply(s, e))
  {
    var s' := Apply(s, e);
    HoldersAfter(s, s', e.w, WorkerAfter(s, e));
    assert WorkerFits(s, s.workers[e.w]);
  }

  lemma MarkThrewKeeps(s: System, e: Event)
    requires Inv(s) && Enabled(s, e) && e.MarkThrew?
    ensures Inv(Apply(s, e))
  {
    var s' := Apply(s, e);
    HoldersAfter(s, s', e.w, WorkerAfter(s, e));
    assert WorkerFits(s, s.workers[e.w]);
  }

  lemma OutsideKeeps(s: System, e: Event)
    requires Inv(s) && Enabled(s, e) && (e.Arrive? || e.Sweep? || e.Reconcile?)
    ensures Inv(Apply(s, e))
  {
    var s' := Apply(s, e);
    assert forall i :: 0 <= i < |s.workers| ==> s'.workers[i] == s.workers[i];
  }

  /** Every state of every run satisfies the invariant. */
  lemma {:induction false} InvAlways(s: System, events: seq<Event>, s': System)
    requires Inv(s) && Reaches(s, events, s')
    ensures Inv(s')
    decreases |events|
  {
    hide Inv, Apply, Enabled;
    if events != [] {
      var e := events[0];
      match e {
        case Arrive => OutsideKeeps(s, e);
        case Sweep(_) => OutsideKeeps(s, e);
        case Reconcile(_, _) => OutsideKeeps(s, e);
        case Claim(_, _) => ClaimKeeps(s, e);
        case ReadState(_) => QuietKeeps(s, e);
        case Load(_) => QuietKeeps(s, e);
        case Crash(_) => QuietKeeps(s, e);
        case Send(_, _) => SendKeeps(s, e);
        case Finalize(_, _, _, _) => FinalizeKeeps(s, e);
        case MarkNoPayload(_, _) => MarkKeeps(s, e);
        case MarkTurned(_, _) => MarkKeeps(s, e);
        case MarkThrew(_, _, _) => MarkThrewKeeps(s, e);
      }
      InvAlways(Apply(s, e), events[1..], s');
    }
  }

  // ---------------------------------------------------------------------------------------------
  // What the service promises.

  /**
  However many dispatchers, sweeps and crashes there are, the provider is called at most once and one
  attempt is counted.
  */
  lemma SentAtMostOnce(s: System, events: seq<Event>, s': System)
    requires Init(s) && Reaches(s, events, s')
    ensures |s'.deliveries| <= 1 && s'.op.attemptCount <= 1
  {
    InvAlways(s, events, s');
  }

  /** An operation that was finalised, and every answer "sent", stand for one accepted email, whose id is recorded. */
  lemma SuccessMeansDelivered(s: System, events: seq<Event>, s': System, i: nat)
    requires Init(s) && Reaches(s, events, s') && !s'.reconciled
    requires s'.op.status == "SUCCEEDED" || (i < |s'.workers| && s'.workers[i] == Done(Sent))
    ensures s'.op.status == "SUCCEEDED" && |s'.deliveries| == 1 && s'.deliveries[0].Accepted?
    ensures s'.op.result == Terminal("SENT", Recorded(s'.deliveries[0].messageId))
  {
    InvAlways(s, events, s');
    if i < |s'.workers| {
      assert WorkerFits(s', s'.workers[i]);
    }
  }

  /**
  An operation that failed, and every answer "rejected", mean that no email was or will be accepted:
  asking again is safe.
  */
  lemma RejectionMeansNotDelivered(s: System, events: seq<Event>, s': System, i: nat, later: seq<Event>, s'': System)
    requires Init(s) && Reaches(s, events, s') && Reaches(s', later, s'') && !s'.reconciled
    requires s'.op.status == "FAILED" || (i < |s'.workers| && s'.workers[i] == Done(Rejected))
    ensures NotDelivered(s'') && s''.deliveries == s'.deliveries
  {
    InvAlways(s, events, s');
    if s'.op.status != "FAILED" {
      assert WorkerFits(s', s'.workers[i]);
    }
    NothingMoreIsSent(s', later, s'');
  }

  /** Once the operation has left its first status and nobody holds it, nobody ever will. */
  lemma {:induction false} NothingMoreIsSent(s: System, events: seq<Event>, s': System)
    requires NoHolder(s) && s.op.status != "REQUESTED" && Reaches(s, events, s')
    ensures s'.deliveries == s.deliveries
    decreases |events|
  {
    if events != [] {
      StaysUnheld(s, events[0]);
      hide Apply, NoHolder, Enabled;
      NothingMoreIsSent(Apply(s, events[0]), events[1..], s');
    }
  }

  lemma StaysUnheld(s: System, e: Event)
    requires NoHolder(s) && s.op.status != "REQUESTED" && Enabled(s, e)
    ensures var s' := Apply(s, e); NoHolder(s') && s'.op.status != "REQUESTED" && s'.deliveries == s.deliveries
  {
  }

  // ---------------------------------------------------------------------------------------------
  // When an answer "rejected" disagrees with the ledger.

  /** The dispatcher is about to answer "rejected" after its own attempt. */
  predicate Rejects(s: System, e: Event) {
    Enabled(s, e) && (e.MarkNoPayload? || (e.MarkTurned? && !s.workers[e.w].ambiguous))
  }

  /**
  A dispatcher that answers "rejected" leaves the operation FAILED if and only if it still finds it
  STARTED; otherwise it leaves it UNKNOWN. One that found no payload never finds it STARTED, so no
  stored request ever fails for an invalid payload.
  */
  lemma RejectedLedger(s0: System, events: seq<Event>, s: System, e: Event)
    requires Init(s0) && Reaches(s0, events, s) && !s.reconciled && Rejects(s, e)
    ensures var s' := Apply(s, e);
            && s'.workers[e.w] == Done(Rejected)
            && (s'.op.status == "FAILED" <==> s.op.status == "STARTED")
            && (s'.op.status != "FAILED" ==> s'.op == s.op && s.op.status == "UNKNOWN")
    ensures e.MarkNoPayload? ==> s.op.status == "UNKNOWN"
  {
    InvAlways(s0, events, s);
    assert WorkerFits(s, s.workers[e.w]);
  }

  predicate Waits(w: Worker) {
    BeforeSending(w) || w.Turned? || w.Delivered?
  }

  /** A dispatcher that has not sent, or has sent and not yet recorded the outcome, still has the operation. */
  ghost predicate StillStarted(s: System) {
    forall i :: 0 <= i < |s.workers| && Waits(s.workers[i]) ==> s.op.status == "STARTED"
  }

  lemma {:induction false} StartedWithoutSweeps(s: System, events: seq<Event>, s': System)
    requires Inv(s) && StillStarted(s) && Reaches(s, events, s')
    requires forall i :: 0 <= i < |events| ==> !events[i].Sweep?
    ensures StillStarted(s')
    decreases |events|
  {
    if events != [] {
      assert Reaches(s, [events[0]], Apply(s, events[0])) by { assert [events[0]][1..] == []; }
      InvAlways(s, [events[0]], Apply(s, events[0]));
      StepStaysStarted(s, events[0]);
      hide Inv, Apply, Enabled, StillStarted;
      StartedWithoutSweeps(Apply(s, events[0]), events[1..], s');
    }
  }

  lemma StepStaysStarted(s: System, e: Event)
    requires OneHolder(s) && StillStarted(s) && Enabled(s, e) && !e.Sweep?
    requires s.op.status == "REQUESTED" ==> NoHolder(s)
    ensures StillStarted(Apply(s, e))
  {
    var s' := Apply(s, e);
    if !e.Arrive? && !e.Reconcile? {
      assert forall i :: 0 <= i < |s.workers| && i != e.w ==> s'.workers[i] == s.workers[i];
    }
  }

  /** Only giving up on a started operation brings this about: without it "rejected" always leaves FAILED. */
  lemma RejectedWithoutSweeps(s0: System, events: seq<Event>, s: System, e: Event)
    requires Init(s0) && Reaches(s0, events, s) && Rejects(s, e)
    requires forall i :: 0 <= i < |events| ==> !events[i].Sweep?
    ensures e.MarkTurned? && Apply(s, e).op.status == "FAILED"
  {
    StartedWithoutSweeps(s0, events, s);
    InvAlways(s0, events, s);
    assert WorkerFits(s, s.workers[e.w]);
  }

  lemma ThenReaches(s: System, e: Event, events: seq<Event>, s': System)
    requires Enabled(s, e) && Reaches(Apply(s, e), events, s')
    ensures Reaches(s, [e] + events, s')
  {
    assert ([e] + events)[1..] == events;
  }

  /** It does happen when the payload is gone before the dispatcher reads it ... */
  lemma RejectedWithoutPayload(s: System, now: int) returns (events: seq<Event>, s': System)
    requires Init(s)
    ensures Reaches(s, events, s') && s'.workers == [Done(Rejected)]
    ensures s'.op.status == "UNKNOWN" && s'.deliveries == [] && !s'.reconciled
  {
    var s1 := Apply(s, Arrive);
    var s2 := Apply(s1, Claim(0, now));
    var s3 := Apply(s2, Sweep(now));
    var s4 := Apply(s3, Load(0));
    s' := Apply(s4, MarkNoPayload(0, now));
    hide Apply;
    ThenReaches(s4, MarkNoPayload(0, now), [], s');
    events := [MarkNoPayload(0, now)];
    ThenReaches(s3, Load(0), events, s');
    events := [Load(0)] + events;
    ThenReaches(s2, Sweep(now), events, s');
    events := [Sweep(now)] + events;
    ThenReaches(s1, Claim(0, now), events, s');
    events := [Claim(0, now)] + events;
    ThenReaches(s, Arrive, events, s');
    events := [Arrive] + events;
  }

  /** A dispatcher that has claimed a stored request. */
  lemma ClaimedRun(s: System, now: int) returns (s2: System)
    requires Init(s)
    ensures forall events, s' :: Reaches(s2, events, s') ==> Reaches(s, [Arrive] + ([Claim(0, now)] + events), s')
    ensures s2 == System(Changed(s.op, ClaimUpdate(now)), [Claimed], [], false)
  {
    var s1 := Apply(s, Arrive);
    s2 := Apply(s1, Claim(0, now));
    hide Apply;
    forall events, s' | Reaches(s2, events, s') ensures Reaches(s, [Arrive] + ([Claim(0, now)] + events), s') {
      ThenReaches(s1, Claim(0, now), events, s');
      ThenReaches(s, Arrive, [Claim(0, now)] + events, s');
    }
  }

  /** ... and when the provider refuses after somebody has given up on the operation. */
  lemma RejectedAfterSending(s: System, now: int) returns (events: seq<Event>, s': System)
    requires Init(s)
    ensures Reaches(s, events, s') && s'.workers == [Done(Rejected)]
    ensures s'.op.status == "UNKNOWN" && s'.deliveries == [Refused] && !s'.reconciled
  {
    var s2 := ClaimedRun(s, now);
    var s3 := Apply(s2, Load(0));
    var s4 := Apply(s3, Send(0, Refused));
    var s5 := Apply(s4, Sweep(now));
    s' := Apply(s5, MarkTurned(0, now));
    hide Apply;
    ThenReaches(s5, MarkTurned(0, now), [], s');
    events := [MarkTurned(0, now)];
    ThenReaches(s4, Sweep(now), events, s');
    events := [Sweep(now)] + events;
    ThenReaches(s3, Send(0, Refused), events, s');
    events := [Send(0, Refused)] + events;
    ThenReaches(s2, Load(0), events, s');
    events := [Load(0)] + events;
    events := [Arrive] + ([Claim(0, now)] + events);
  }

  // ---------------------------------------------------------------------------------------------
  // What the ledger records.

  /** The times of an operation, by its status. */
  ghost predicate Timed(s: System) {
    match s.op.status
    case "REQUESTED" => s.op.startedAt == None && s.op.completedAt == None
    case "STARTED" => s.op.startedAt.Some? && s.op.completedAt == None
    case _ => s.op.startedAt.Some? && s.op.completedAt.Some?
  }

  /** The evidence and the error of an operation, by its status. */
  ghost predicate Evidenced(s: System) {
    && (s.op.status in {"REQUESTED", "STARTED"} ==> s.op.errorCode == None && s.op.externalReference == None)
    && (s.op.status in {"REQUESTED", "STARTED", "UNKNOWN"} ==> !s.reconciled)
    && (!s.reconciled ==>
          && (s.op.status == "SUCCEEDED" ==> s.op.errorCode == None && s.op.externalReference == Recorded(SentId(s)))
          && (s.op.status == "FAILED" ==>
                s.op.result == Terminal("FAILED", None) && s.op.errorCode.Some? && s.deliveries == [Refused])
          && (s.op.status == "UNKNOWN" ==>
                s.op.result.Terminal? && s.op.result.deliveryStatus == "UNKNOWN" && s.op.errorCode.Some?))
  }

  /** The id under which the provider accepted the email; empty when it did not. */
  function SentId(s: System): string {
    if |s.deliveries| == 1 && s.deliveries[0].Accepted? then s.deliveries[0].messageId else ""
  }

  ghost predicate LostAfterClaim(s: System) {
    forall i :: 0 <= i < |s.workers| && s.workers[i].Lost? ==> s.op.status != "REQUESTED"
  }

  lemma TimedStep(s: System, e: Event)
    requires Inv(s) && Timed(s) && Enabled(s, e)
    ensures Timed(Apply(s, e))
  {
    hide NoHolder, OneHolder, WorkerFits, NotDelivered;
  }

  lemma EvidencedStep(s: System, e: Event)
    requires Inv(s) && Evidenced(s) && Enabled(s, e)
    ensures Evidenced(Apply(s, e))
  {
    if e.Send? || e.Finalize? || e.MarkNoPayload? || e.MarkTurned? || e.MarkThrew? {
      assert WorkerFits(s, s.workers[e.w]);
    }
    hide NoHolder, OneHolder, NotDelivered;
  }

  lemma LostStep(s: System, e: Event)
    requires LostAfterClaim(s) && Enabled(s, e)
    ensures LostAfterClaim(Apply(s, e))
  {
    var s' := Apply(s, e);
    if !e.Arrive? && !e.Reconcile? && !e.Sweep? {
      assert forall i :: 0 <= i < |s.workers| && i != e.w ==> s'.workers[i] == s.workers[i];
    }
  }

  /** One step of a run. */
  lemma StepInv(s: System, e: Event)
    requires Inv(s) && Enabled(s, e)
    ensures Inv(Apply(s, e))
  {
    hide Inv, Apply;
    assert Reaches(s, [e], Apply(s, e)) by { assert [e][1..] == []; }
    InvAlways(s, [e], Apply(s, e));
  }

  /** Times, evidence and errors agree with the status in every state of every run. */
  lemma {:induction false} RecordsAlways(s: System, events: seq<Event>, s': System)
    requires Inv(s) && Timed(s) && Evidenced(s) && LostAfterClaim(s) && Reaches(s, events, s')
    ensures Inv(s') && Timed(s') && Evidenced(s') && LostAfterClaim(s')
    decreases |events|
  {
    hide Inv, Timed, Evidenced, LostAfterClaim, Apply, Enabled;
    if events != [] {
      StepInv(s, events[0]);
      TimedStep(s, events[0]);
      EvidencedStep(s, events[0]);
      LostStep(s, events[0]);
      RecordsAlways(Apply(s, events[0]), events[1..], s');
    }
  }

  lemma InitRecords(s: System)
    requires Init(s)
    ensures Inv(s) && Timed(s) && Evidenced(s) && LostAfterClaim(s)
  {
  }

  /** What a dispatcher that lost its claim answers: in progress exactly while the operation is started. */
  lemma ReadAnswer(s0: System, events: seq<Event>, s: System, w: nat)
    requires Init(s0) && Reaches(s0, events, s) && Enabled(s, ReadState(w))
    ensures var answer := Apply(s, ReadState(w)).workers[w];
            && (answer == Done(InProgress) <==> s.op.status == "STARTED")
            && (answer == Done(Sent) <==> s.op.status == "SUCCEEDED")
            && (answer == Done(Rejected) <==> s.op.status == "FAILED")
            && (answer == Done(Unknown) <==> s.op.status == "UNKNOWN")
  {
    InitRecords(s0);
    RecordsAlways(s0, events, s);
    hide Evidenced, Timed;
  }

  /** A finalisation that commits and answers ends in SUCCEEDED; one that finds another status changes nothing. */
  lemma FinalizedLedger(s: System, e: Event)
    requires Enabled(s, e) && e.Finalize?
    ensures var s' := Apply(s, e);
            var id := s.workers[e.w].messageId;
            && (s.op.status == "STARTED" && e.commits ==>
                  && s'.op.status == "SUCCEEDED" && s'.op.completedAt == Some(e.now) && s'.op.errorCode == None
                  && s'.op.result == Terminal("SENT", Recorded(id))
                     && (id != "" ==> s'.op.externalReference == Some(id)))
            && (s.op.status != "STARTED" || !e.commits ==> s'.op == s.op)
            && (s'.workers[e.w] == Done(Sent) <==> s.op.status == "STARTED" && e.commits && e.answers)
            && (s'.workers[e.w] != Done(Sent) ==> s'.workers[e.w] == FinalizeThrew(id))
  {
  }

  /** After a finalisation that threw a dispatcher answers "unknown" and, if it can, records the reference. */
  lemma ThrewLedger(s: System, e: Event)
    requires Enabled(s, e) && e.MarkThrew?
    ensures var s' := Apply(s, e);
            var id := s.workers[e.w].messageId;
            && s'.workers == s.workers[e.w := Done(Unknown)] && s'.deliveries == s.deliveries
            && (!e.commits || s.op.status !in {"STARTED", "UNKNOWN"} ==> s'.op == s.op)
            && (e.commits && s.op.status == "STARTED" ==>
                  s'.op.status == "UNKNOWN" && s'.op.completedAt == Some(e.now)
                  && s'.op.result == Terminal("UNKNOWN", Recorded(id)))
            && (e.commits && s.op.status == "UNKNOWN" ==>
                  s'.op.status == "UNKNOWN" && s'.op.completedAt == s.op.completedAt)
            && (e.commits && s.op.status in {"STARTED", "UNKNOWN"} && id != "" ==>
                  s'.op.externalReference == Some(id) && s'.op.result == Terminal("UNKNOWN", Some(id)))
  {
  }

  /**
  Giving up moves a started operation to UNKNOWN and touches no other; an operator's word moves an
  UNKNOWN one to what he found.
  */
  lemma OutsideLedger(s: System, e: Event)
    requires Enabled(s, e) && (e.Sweep? || e.Reconcile?)
    ensures var s' := Apply(s, e);
            && s'.workers == s.workers && s'.deliveries == s.deliveries
            && (e.Sweep? && s.op.status != "STARTED" ==> s' == s)
            && (e.Sweep? && s.op.status == "STARTED" ==>
                  s'.op.status == "UNKNOWN" && s'.op.result == Terminal("UNKNOWN", None)
                  && s'.op.completedAt == Some(e.now) && s'.op.externalReference == s.op.externalReference)
            && (e.Reconcile? ==>
                  && s'.reconciled && s'.op.completedAt == Some(e.now)
                  && s'.op.result == s.op.result && s'.op.externalReference == s.op.externalReference
                  && (e.succeeded ==> s'.op.status == "SUCCEEDED" && s'.op.errorCode == None)
                  && (!e.succeeded ==>
                        s'.op.status == "FAILED" && s'.op.errorCode == Some("OPERATOR_PROVIDER_CONFIRMED_FAILED")))
  {
  }

  /** After an ambiguous delivery a dispatcher answers "unknown" and the operation is UNKNOWN. */
  lemma AmbiguousLedger(s0: System, events: seq<Event>, s: System, e: Event)
    requires Init(s0) && Reaches(s0, events, s) && !s.reconciled
    requires Enabled(s, e) && e.MarkTurned? && s.workers[e.w].ambiguous
    ensures var s' := Apply(s, e); s'.op.status == "UNKNOWN" && s'.workers[e.w] == Done(Unknown)
    ensures s.op.status == "STARTED" ==> Apply(s, e).op.completedAt == Some(e.now)
  {
    InvAlways(s0, events, s);
    assert WorkerFits(s, s.workers[e.w]);
  }

  // ---------------------------------------------------------------------------------------------
  // Runs in which every dispatcher comes to its end.

  ghost predicate Orderly(e: Event) {
    !e.Crash? && (e.MarkThrew? ==> e.commits)
  }

  /** A started operation is held by somebody. */
  ghost predicate StartedIsHeld(s: System) {
    s.op.status == "STARTED" ==> !NoHolder(s)
  }

  /** An accepted email whose dispatcher is done is on record. */
  ghost predicate ReferenceKept(s: System) {
    !s.reconciled && NoHolder(s) && SentId(s) != "" ==> s.op.externalReference == Some(SentId(s))
  }

  lemma ClaimIsHeld(s: System, e: Event)
    requires StartedIsHeld(s) && Enabled(s, e) && (e.Claim? || e.Arrive? || e.Sweep? || e.Reconcile?)
    ensures StartedIsHeld(Apply(s, e))
  {
    var s' := Apply(s, e);
    if e.Claim? {
      assert s.op.status == "REQUESTED" ==> Holder(s'.workers[e.w]);
      if s.op.status == "STARTED" {
        var i :| 0 <= i < |s.workers| && Holder(s.workers[i]);
        assert Holder(s'.workers[i]);
      }
    } else if s.op.status == "STARTED" {
      var i :| 0 <= i < |s.workers| && Holder(s.workers[i]);
      assert s'.op.status == "STARTED" ==> Holder(s'.workers[i]);
    }
  }

  lemma WorkIsHeld(s: System, e: Event)
    requires Inv(s) && StartedIsHeld(s) && Enabled(s, e) && Orderly(e)
    requires !e.Claim? && !e.Arrive? && !e.Sweep? && !e.Reconcile?
    ensures StartedIsHeld(Apply(s, e))
  {
    var s' := Apply(s, e);
    assert WorkerFits(s, s.workers[e.w]);
    if s'.op.status == "STARTED" {
      assert s.op.status == "STARTED";
      var i :| 0 <= i < |s.workers| && Holder(s.workers[i]);
      assert Holder(s'.workers[i]);
    }
  }

  lemma ReferenceStep(s: System, e: Event)
    requires Inv(s) && Evidenced(s) && ReferenceKept(s) && Enabled(s, e) && Orderly(e)
    ensures ReferenceKept(Apply(s, e))
  {
    if e.Finalize? || e.MarkThrew? {
      LastReference(s, e);
    } else if e.Send? {
      assert Holder(Apply(s, e).workers[e.w]);
    } else if e.MarkTurned? || e.MarkNoPayload? {
      assert WorkerFits(s, s.workers[e.w]);
    } else {
      NoNewReference(s, e);
    }
  }

  /** The last step of a dispatcher whose email was accepted. */
  lemma LastReference(s: System, e: Event)
    requires Inv(s) && Evidenced(s) && Enabled(s, e) && Orderly(e) && (e.Finalize? || e.MarkThrew?)
    ensures ReferenceKept(Apply(s, e))
  {
    hide NotDelivered;
    assert WorkerFits(s, s.workers[e.w]);
    assert Holder(s.workers[e.w]);
    assert s.op.status != "REQUESTED";
    var id, s' := s.workers[e.w].messageId, Apply(s, e);
    assert SentId(s) == id == SentId(s');
    if e.Finalize? && s'.workers[e.w].FinalizeThrew? {
      assert Holder(s'.workers[e.w]);
    }
  }

  lemma NoNewReference(s: System, e: Event)
    requires ReferenceKept(s) && Enabled(s, e)
    requires e.Arrive? || e.Sweep? || e.Reconcile? || e.Claim? || e.ReadState? || e.Load?
    ensures ReferenceKept(Apply(s, e))
  {
    var s' := Apply(s, e);
    if NoHolder(s') {
      forall i | 0 <= i < |s.workers| ensures !Holder(s.workers[i]) {
        assert !Holder(s'.workers[i]);
      }
    }
  }

  lemma {:induction false} OrderlyAlways(s: System, events: seq<Event>, s': System)
    requires Inv(s) && Timed(s) && Evidenced(s) && LostAfterClaim(s) && StartedIsHeld(s) && ReferenceKept(s)
    requires Reaches(s, events, s') && forall i :: 0 <= i < |events| ==> Orderly(events[i])
    ensures Inv(s') && Evidenced(s') && StartedIsHeld(s') && ReferenceKept(s')
    decreases |events|
  {
    hide Inv, Timed, Evidenced, LostAfterClaim, StartedIsHeld, ReferenceKept, Apply, Enabled;
    if events != [] {
      var e := events[0];
      StepInv(s, e);
      TimedStep(s, e);
      EvidencedStep(s, e);
      LostStep(s, e);
      if e.Claim? || e.Arrive? || e.Sweep? || e.Reconcile? {
        ClaimIsHeld(s, e);
      } else {
        WorkIsHeld(s, e);
      }
      ReferenceStep(s, e);
      OrderlyAlways(Apply(s, e), events[1..], s');
    }
  }

  /**
  When no dispatcher stops half-way, a started operation is held by one of them; once nobody holds a
  claimed operation its status tells what became of the email, or is UNKNOWN, and an accepted email
  is on record.
  */
  lemma OrderlyLedger(s: System, events: seq<Event>, s': System)
    requires Init(s) && Reaches(s, events, s') && forall i :: 0 <= i < |events| ==> Orderly(events[i])
    ensures s'.op.status == "STARTED" ==> !NoHolder(s')
    ensures NoHolder(s') && s'.op.status != "REQUESTED" && !s'.reconciled ==>
              && s'.op.status in {"SUCCEEDED", "FAILED", "UNKNOWN"}
              && (s'.deliveries in {[], [Ambiguous]} ==> s'.op.status == "UNKNOWN")
              && (s'.deliveries == [Refused] ==> s'.op.status != "SUCCEEDED")
              && (SentId(s') != "" ==> s'.op.status != "FAILED" && s'.op.externalReference == Some(SentId(s')))
  {
    InitRecords(s);
    OrderlyAlways(s, events, s');
  }

  /** Nobody gives up on a started operation, and a finalisation commits exactly when it answers. */
  ghost predicate Undisturbed(e: Event) {
    Orderly(e) && !e.Sweep? && (e.Finalize? ==> e.commits == e.answers)
  }

  ghost predicate HeldIsStarted(s: System) {
    forall i :: 0 <= i < |s.workers| && Holder(s.workers[i]) ==> s.op.status == "STARTED"
  }

  lemma HeldStep(s: System, e: Event)
    requires OneHolder(s) && HeldIsStarted(s) && Enabled(s, e) && Undisturbed(e)
    ensures HeldIsStarted(Apply(s, e))
  {
    var s' := Apply(s, e);
    if !e.Arrive? && !e.Reconcile? {
      assert forall i :: 0 <= i < |s.workers| && i != e.w ==> s'.workers[i] == s.workers[i];
    }
  }

  lemma {:induction false} HeldAlways(s: System, events: seq<Event>, s': System)
    requires Inv(s) && HeldIsStarted(s) && Reaches(s, events, s')
    requires forall i :: 0 <= i < |events| ==> Undisturbed(events[i])
    ensures HeldIsStarted(s')
    decreases |events|
  {
    hide Apply, Enabled, HeldIsStarted, OpFits, WorkerFits;
    if events != [] {
      StepInv(s, events[0]);
      HeldStep(s, events[0]);
      HeldAlways(Apply(s, events[0]), events[1..], s');
    }
  }

  /** Then an operation is started exactly while somebody holds it. */
  lemma StartedExactlyWhileHeld(s: System, events: seq<Event>, s': System)
    requires Init(s) && Reaches(s, events, s') && forall i :: 0 <= i < |events| ==> Undisturbed(events[i])
    ensures s'.op.status == "STARTED" <==> exists i :: 0 <= i < |s'.workers| && Holder(s'.workers[i])
  {
    hide Apply, Enabled, OpFits, WorkerFits, Evidenced;
    InitRecords(s);
    OrderlyLedger(s, events, s');
    HeldAlways(s, events, s');
  }
}
