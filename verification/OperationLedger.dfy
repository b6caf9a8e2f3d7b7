/** The in-memory ledger of external operations: creation, compare-and-set updates and lookups. */
module OperationLedger {
  import opened Wrappers

  datatype Operation<J> = Operation(
    id: string,
    tenantId: string,
    integrationId: string,
    operationKind: string,
    requestHash: string,
    providerIdempotencyKey: string,
    status: string,
    result: J,
    attemptCount: int,
    createdAt: int,
    startedAt: Option<int>,
    completedAt: Option<int>,
    externalReference: Option<string>,
    errorCode: Option<string>,
    errorMessage: Option<string>)

  datatype NewOperation<J> = NewOperation(
    id: string,
    tenantId: string,
    integrationId: string,
    operationKind: string,
    requestHash: string,
    providerIdempotencyKey: string,
    status: string,
    result: J)

  /** A nullable column in an update: left alone, or set, possibly to null. */
  datatype Field = Keep | Set(value: Option<string>)

  datatype Update<J> = Update(
    status: Option<string>,
    increment: Option<int>,
    startedAt: Option<int>,
    completedAt: Option<int>,
    result: Option<J>,
    externalReference: Option<string>,
    errorCode: Field,
    errorMessage: Field)

  datatype Where = Where(id: string, operationKind: string, status: string)

  type Operations<J> = map<string, Operation<J>>

  function Created<J>(d: NewOperation<J>, now: int): Operation<J> {
    Operation(d.id, d.tenantId, d.integrationId, d.operationKind, d.requestHash, d.providerIdempotencyKey,
              d.status, d.result, 0, now, None, None, None, None, None)
  }

  predicate Selects<J>(ops: Operations<J>, w: Where) {
    w.id in ops && ops[w.id].operationKind == w.operationKind && ops[w.id].status == w.status
  }

  /** An operation with the given columns changed; an empty external reference changes nothing. */
  function Changed<J>(o: Operation<J>, d: Update<J>): Operation<J> {
    o.(status := if d.status.Some? then d.status.value else o.status,
       attemptCount := if d.increment.Some? then o.attemptCount + d.increment.value else o.attemptCount,
       startedAt := if d.startedAt.Some? then d.startedAt else o.startedAt,
       completedAt := if d.completedAt.Some? then d.completedAt else o.completedAt,
       result := if d.result.Some? then d.result.value else o.result,
       externalReference := if d.externalReference.Some? && d.externalReference.value != "" then d.externalReference
                            else o.externalReference,
       errorCode := if d.errorCode.Set? then d.errorCode.value else o.errorCode,
       errorMessage := if d.errorMessage.Set? then d.errorMessage.value else o.errorMessage)
  }

  /** What an update with the given columns makes of each column of a record. */
  ghost predicate Columns<J>(o: Operation<J>, d: Update<J>, n: Operation<J>) {
    && n.id == o.id && n.tenantId == o.tenantId && n.integrationId == o.integrationId
    && n.operationKind == o.operationKind && n.requestHash == o.requestHash && n.createdAt == o.createdAt
    && n.providerIdempotencyKey == o.providerIdempotencyKey
    && (match d.status case Some(x) => n.status == x case None => n.status == o.status)
    && n.attemptCount - o.attemptCount == (if d.increment.Some? then d.increment.value else 0)
    && (match d.startedAt case Some(x) => n.startedAt == Some(x) case None => n.startedAt == o.startedAt)
    && (match d.completedAt case Some(x) => n.completedAt == Some(x) case None => n.completedAt == o.completedAt)
    && (match d.result case Some(x) => n.result == x case None => n.result == o.result)
    && (n.externalReference == o.externalReference ||
        (d.externalReference.Some? && d.externalReference.value != "" && n.externalReference == d.externalReference))
    && (d.externalReference.Some? && d.externalReference.value != "" ==> n.externalReference == d.externalReference)
    && (match d.errorCode case Set(x) => n.errorCode == x case Keep => n.errorCode == o.errorCode)
    && (match d.errorMessage case Set(x) => n.errorMessage == x case Keep => n.errorMessage == o.errorMessage)
  }

  lemma ChangesColumns<J>(o: Operation<J>, d: Update<J>)
    ensures Columns(o, d, Changed(o, d))
  {
  }

  datatype Outcome = Count(n: nat) | Thrown

  /** What an update returns: nothing selected, the simulated failure, or one changed row. */
  function OutcomeOf<J>(ops: Operations<J>, fail: bool, w: Where, d: Update<J>): Outcome {
    if !Selects(ops, w) then Count(0)
    else if d.status == Some("SUCCEEDED") && fail then Thrown
    else Count(1)
  }

  function After<J>(ops: Operations<J>, fail: bool, w: Where, d: Update<J>): Operations<J> {
    if OutcomeOf(ops, fail, w, d) == Count(1) then ops[w.id := Changed(ops[w.id], d)] else ops
  }

  method AssignDelivery<J>(o: Operation<J>, data: Update<J>) returns (operation: Operation<J>)
    ensures operation
            == Changed(o, data.(result := None, externalReference := None, errorCode := Keep, errorMessage := Keep))
  {
    operation := o;
    if data.status.Some? { operation := operation.(status := data.status.value); }
    if data.increment.Some? { operation := operation.(attemptCount := operation.attemptCount + data.increment.value); }
    if data.startedAt.Some? { operation := operation.(startedAt := data.startedAt); }
    if data.completedAt.Some? { operation := operation.(completedAt := data.completedAt); }
  }

  method AssignDetails<J>(o: Operation<J>, data: Update<J>) returns (operation: Operation<J>)
    ensures operation == Changed(o, data.(status := None, increment := None, startedAt := None, completedAt := None))
  {
    operation := o;
    if data.result.Some? { operation := operation.(result := data.result.value); }
    if data.externalReference.Some? && data.externalReference.value != "" {
      operation := operation.(externalReference := data.externalReference);
    }
    if data.errorCode.Set? { operation := operation.(errorCode := data.errorCode.value); }
    if data.errorMessage.Set? { operation := operation.(errorMessage := data.errorMessage.value); }
  }

  lemma ChangedInTwo<J>(o: Operation<J>, d: Update<J>)
    ensures Changed(Changed(o, d.(result := None, externalReference := None, errorCode := Keep, errorMessage := Keep)),
                    d.(status := None, increment := None, startedAt := None, completedAt := None)) == Changed(o, d)
  {
  }

  class Ledger<J> {
    var storedOperations: Operations<J>
    var failFinalizeOnce: bool
    var tenantScopedProjectionReads: nat

    constructor ()
      ensures storedOperations == map[] && !failFinalizeOnce && tenantScopedProjectionReads == 0
    {
      storedOperations, failFinalizeOnce, tenantScopedProjectionReads := map[], false, 0;
    }

    method Create(data: NewOperation<J>, now: int) returns (operation: Operation<J>)
      modifies this`storedOperations
      ensures storedOperations == old(storedOperations)[data.id := Created(data, now)]
      ensures operation == storedOperations[data.id]
      ensures && operation.id == data.id && operation.tenantId == data.tenantId
              && operation.integrationId == data.integrationId && operation.operationKind == data.operationKind
              && operation.requestHash == data.requestHash && operation.status == data.status
              && operation.providerIdempotencyKey == data.providerIdempotencyKey && operation.result == data.result
      ensures operation.attemptCount == 0 && operation.createdAt == now
      ensures operation.startedAt == None && operation.completedAt == None && operation.externalReference == None
      ensures operation.errorCode == None && operation.errorMessage == None
    {
      operation := Created(data, now);
      storedOperations := storedOperations[operation.id := operation];
    }

    /** A compare-and-set on kind and status. A simulated failure leaves every record as it is and happens once. */
    method UpdateMany(w: Where, data: Update<J>) returns (r: Outcome)
      modifies this`storedOperations, this`failFinalizeOnce
      ensures r == OutcomeOf(old(storedOperations), old(failFinalizeOnce), w, data)
      ensures r == Thrown <==> && Selects(old(storedOperations), w) && data.status == Some("SUCCEEDED")
                               && old(failFinalizeOnce)
      ensures r == Count(0) <==> !Selects(old(storedOperations), w)
      ensures r == Thrown || r == Count(0) || r == Count(1)
      ensures storedOperations == After(old(storedOperations), old(failFinalizeOnce), w, data)
      ensures storedOperations.Keys == old(storedOperations).Keys
      ensures forall id :: id in storedOperations && (id != w.id || r != Count(1)) ==>
                             storedOperations[id] == old(storedOperations)[id]
      ensures r == Count(1) ==> Columns(old(storedOperations)[w.id], data, storedOperations[w.id])
      ensures r == Thrown ==> storedOperations == old(storedOperations)
      ensures failFinalizeOnce == (old(failFinalizeOnce) && r != Thrown)
    {
      hide Changed, Columns;
      if w.id !in storedOperations || storedOperations[w.id].operationKind != w.operationKind
         || storedOperations[w.id].status != w.status {
        return Count(0);
      }
      if data.status == Some("SUCCEEDED") && failFinalizeOnce {
        failFinalizeOnce := false;
        return Thrown;
      }
      var operation := storedOperations[w.id];
      operation := AssignDelivery(operation, data);
      operation := AssignDetails(operation, data);
      ChangedInTwo(storedOperations[w.id], data);
      ChangesColumns(storedOperations[w.id], data);
      storedOperations := storedOperations[w.id := operation];
      return Count(1);
    }

    /** A lookup by id and kind, and by status, tenant and integration when those are given. */
    method FindFirst(id: string, kind: string, tenantId: Option<string>, integrationId: Option<string>,
        status: Option<string>)
      returns (r: Option<Operation<J>>)
      modifies this`tenantScopedProjectionReads
      ensures r.Some? <==> && id in storedOperations && storedOperations[id].operationKind == kind
                           && (status.Some? ==> storedOperations[id].status == status.value)
                           && (tenantId.Some? ==> storedOperations[id].tenantId == tenantId.value)
                           && (integrationId.Some? ==> storedOperations[id].integrationId == integrationId.value)
      ensures r.Some? ==> r.value == storedOperations[id]
      ensures tenantScopedProjectionReads == old(tenantScopedProjectionReads) +
              if r.Some? && tenantId.Some? && tenantId.value != "" && integrationId.Some?
                  && integrationId.value != "" then 1 else 0
    {
      if id !in storedOperations || storedOperations[id].operationKind != kind
         || (status.Some? && storedOperations[id].status != status.value)
         || (tenantId.Some? && storedOperations[id].tenantId != tenantId.value)
         || (integrationId.Some? && storedOperations[id].integrationId != integrationId.value) {
        return None;
      }
      if tenantId.Some? && tenantId.value != "" && integrationId.Some? && integrationId.value != "" {
        tenantScopedProjectionReads := tenantScopedProjectionReads + 1;
      }
      return Some(storedOperations[id]);
    }
  }

  // ---------------------------------------------------------------------------------------------
  // Runs of ledger calls.

  datatype Call<J> =
    | DoCreate(data: NewOperation<J>, now: int)
    | DoUpdate(w: Where, change: Update<J>)
    | ArmFailure

  datatype State<J> = State(ops: Operations<J>, fail: bool)

  function Step<J>(s: State<J>, c: Call<J>): State<J> {
    match c
    case DoCreate(d, now) => s.(ops := s.ops[d.id := Created(d, now)])
    case DoUpdate(w, d) => State(After(s.ops, s.fail, w, d), s.fail && OutcomeOf(s.ops, s.fail, w, d) != Thrown)
    case ArmFailure => s.(fail := true)
  }

  ghost predicate Run<J>(states: seq<State<J>>, calls: seq<Call<J>>) {
    |states| == |calls| + 1 && forall i :: 0 <= i < |calls| ==> states[i + 1] == Step(states[i], calls[i])
  }

  /** The call is an update of `id` that succeeds from status `from`. */
  predicate Succeeds<J>(s: State<J>, c: Call<J>, id: string, from: string) {
    c.DoUpdate? && c.w.id == id && c.w.status == from && OutcomeOf(s.ops, s.fail, c.w, c.change) == Count(1)
  }

  /** ... and that moves the operation to another status. */
  predicate Leaves<J>(s: State<J>, c: Call<J>, id: string, from: string) {
    Succeeds(s, c, id, from) && c.change.status.Some? && c.change.status.value != from
  }

  /** The call makes `status` the status of operation `id`: a creation, or an update that succeeds. */
  predicate Sets<J>(s: State<J>, c: Call<J>, id: string, status: string) {
    match c
    case DoCreate(d, _) => d.id == id && d.status == status
    case DoUpdate(w, d) => w.id == id && OutcomeOf(s.ops, s.fail, w, d) == Count(1) && d.status == Some(status)
    case ArmFailure => false
  }

  predicate HasStatus<J>(s: State<J>, id: string, status: string) {
    id in s.ops && s.ops[id].status == status
  }

  lemma StatusChanges<J>(s: State<J>, c: Call<J>, id: string, status: string)
    ensures HasStatus(Step(s, c), id, status) && !HasStatus(s, id, status) ==> Sets(s, c, id, status)
    ensures Leaves(s, c, id, status) ==> HasStatus(s, id, status) && !HasStatus(Step(s, c), id, status)
  {
  }

  /** A status that is absent and later present was set in between. */
  lemma {:induction false} SetBetween<J>(states: seq<State<J>>, calls: seq<Call<J>>, id: string, status: string,
      m: nat, n: nat) returns (k: nat)
    requires Run(states, calls) && m <= n < |states|
    requires !HasStatus(states[m], id, status) && HasStatus(states[n], id, status)
    ensures m <= k < n && Sets(states[k], calls[k], id, status)
    decreases n - m
  {
    hide HasStatus, Sets, Step;
    assert n > m;
    StatusChanges(states[n - 1], calls[n - 1], id, status);
    if HasStatus(states[n - 1], id, status) {
      k := SetBetween(states, calls, id, status, m, n - 1);
    } else {
      k := n - 1;
    }
  }

  /** Between two updates that take an operation out of the same status, some call set that status again. */
  lemma ClaimsAlternate<J>(states: seq<State<J>>, calls: seq<Call<J>>, id: string, status: string, m: nat, n: nat)
      returns (k: nat)
    requires Run(states, calls) && m < n < |calls|
    requires Leaves(states[m], calls[m], id, status) && Leaves(states[n], calls[n], id, status)
    ensures m < k < n && Sets(states[k], calls[k], id, status)
  {
    hide HasStatus, Sets, Step, Leaves;
    StatusChanges(states[m], calls[m], id, status);
    StatusChanges(states[n], calls[n], id, status);
    k := SetBetween(states, calls, id, status, m + 1, n);
  }

  /** So an operation whose initial status is never restored is claimed at most once. */
  lemma AtMostOneClaim<J>(states: seq<State<J>>, calls: seq<Call<J>>, id: string, status: string, from: nat, m: nat,
      n: nat)
    requires Run(states, calls) && from <= m < |calls| && from <= n < |calls|
    requires forall k :: from <= k < |calls| ==> !Sets(states[k], calls[k], id, status)
    requires Leaves(states[m], calls[m], id, status) && Leaves(states[n], calls[n], id, status)
    ensures m == n
  {
    hide Sets, Leaves, Step;
    if m < n {
      var k := ClaimsAlternate(states, calls, id, status, m, n);
    } else if n < m {
      var k := ClaimsAlternate(states, calls, id, status, n, m);
    }
  }

  /** A claim: an update out of `status` that counts an attempt. */
  predicate IsClaim<J>(s: State<J>, c: Call<J>, id: string, status: string) {
    Leaves(s, c, id, status) && c.change.increment == Some(1)
  }

  function Claims<J>(states: seq<State<J>>, calls: seq<Call<J>>, id: string, status: string, lo: nat, hi: nat): nat
    requires lo <= hi <= |calls| && |states| == |calls| + 1
    decreases hi - lo
  {
    if lo == hi then 0
    else (if IsClaim(states[lo], calls[lo], id, status) then 1 else 0) + Claims(states, calls, id, status, lo + 1, hi)
  }

  /** Nothing but claims touches the attempt count of `id`, and `id` is not created again. */
  ghost predicate OnlyClaimsCount<J>(states: seq<State<J>>, calls: seq<Call<J>>, id: string, status: string, lo: nat)
    requires |states| == |calls| + 1
  {
    && (forall k :: lo <= k < |calls| && calls[k].DoCreate? ==> calls[k].data.id != id)
    && (forall k ::
          lo <= k < |calls| && calls[k].DoUpdate? && calls[k].w.id == id && calls[k].change.increment.Some? ==>
          || IsClaim(states[k], calls[k], id, status)
          || OutcomeOf(states[k].ops, states[k].fail, calls[k].w, calls[k].change) != Count(1))
  }

  /** Then the attempt count is the number of claims that succeeded. */
  lemma {:induction false} AttemptsAreClaims<J>(states: seq<State<J>>, calls: seq<Call<J>>, id: string,
      status: string, lo: nat, hi: nat)
    requires Run(states, calls) && lo <= hi <= |calls| && OnlyClaimsCount(states, calls, id, status, lo)
    requires id in states[lo].ops
    ensures id in states[hi].ops
    ensures states[hi].ops[id].attemptCount
            == states[lo].ops[id].attemptCount + Claims(states, calls, id, status, lo, hi)
    decreases hi - lo
  {
    if lo < hi {
      AttemptStep(states[lo], calls[lo], id, status);
      assert states[lo + 1] == Step(states[lo], calls[lo]);
      hide Step, IsClaim;
      AttemptsAreClaims(states, calls, id, status, lo + 1, hi);
    }
  }

  lemma AttemptStep<J>(s: State<J>, c: Call<J>, id: string, status: string)
    requires id in s.ops && (c.DoCreate? ==> c.data.id != id)
    requires c.DoUpdate? && c.w.id == id && c.change.increment.Some? ==>
               IsClaim(s, c, id, status) || OutcomeOf(s.ops, s.fail, c.w, c.change) != Count(1)
    ensures id in Step(s, c).ops
    ensures Step(s, c).ops[id].attemptCount == s.ops[id].attemptCount + if IsClaim(s, c, id, status) then 1 else 0
  {
  }

  // ---------------------------------------------------------------------------------------------
  // Every column holds what was last written to it.

  datatype Column =
    | TenantId | IntegrationId | OperationKind | RequestHash | ProviderIdempotencyKey | CreatedAt
    | Status | Result | StartedAt | CompletedAt | ExternalReference | ErrorCode | ErrorMessage

  datatype Value<J> = Text(text: Option<string>) | Time(time: Option<int>) | Json(json: J)

  function Get<J>(o: Operation<J>, c: Column): Value<J> {
    match c
    case TenantId => Text(Some(o.tenantId))
    case IntegrationId => Text(Some(o.integrationId))
    case OperationKind => Text(Some(o.operationKind))
    case RequestHash => Text(Some(o.requestHash))
    case ProviderIdempotencyKey => Text(Some(o.providerIdempotencyKey))
    case CreatedAt => Time(Some(o.createdAt))
    case Status => Text(Some(o.status))
    case Result => Json(o.result)
    case StartedAt => Time(o.startedAt)
    case CompletedAt => Time(o.completedAt)
    case ExternalReference => Text(o.externalReference)
    case ErrorCode => Text(o.errorCode)
    case ErrorMessage => Text(o.errorMessage)
  }

  /** What a creation writes to a column. */
  function CreateWrites<J>(d: NewOperation<J>, now: int, c: Column): Value<J> {
    match c
    case TenantId => Text(Some(d.tenantId))
    case IntegrationId => Text(Some(d.integrationId))
    case OperationKind => Text(Some(d.operationKind))
    case RequestHash => Text(Some(d.requestHash))
    case ProviderIdempotencyKey => Text(Some(d.providerIdempotencyKey))
    case CreatedAt => Time(Some(now))
    case Status => Text(Some(d.status))
    case Result => Json(d.result)
    case StartedAt => Time(None)
    case CompletedAt => Time(None)
    case _ => Text(None)
  }

  /** What an update writes to a column, if anything. */
  function UpdateWrites<J>(d: Update<J>, c: Column): Option<Value<J>> {
    match c
    case Status => if d.status.Some? then Some(Text(d.status)) else None
    case Result => if d.result.Some? then Some(Json(d.result.value)) else None
    case StartedAt => if d.startedAt.Some? then Some(Time(d.startedAt)) else None
    case CompletedAt => if d.completedAt.Some? then Some(Time(d.completedAt)) else None
    case ExternalReference => if d.externalReference in {None, Some("")} then None else Some(Text(d.externalReference))
    case ErrorCode => if d.errorCode.Set? then Some(Text(d.errorCode.value)) else None
    case ErrorMessage => if d.errorMessage.Set? then Some(Text(d.errorMessage.value)) else None
    case _ => None
  }

  /** What a call in state `s` writes to a column of operation `id`, if it succeeds and writes it. */
  function Writes<J>(s: State<J>, call: Call<J>, id: string, c: Column): Option<Value<J>> {
    match call
    case DoCreate(d, now) => if d.id == id then Some(CreateWrites(d, now, c)) else None
    case DoUpdate(w, d) =>
      if w.id == id && OutcomeOf(s.ops, s.fail, w, d) == Count(1) then UpdateWrites(d, c) else None
    case ArmFailure => None
  }

  lemma OneWrite<J>(s: State<J>, call: Call<J>, id: string, c: Column)
    requires id in Step(s, call).ops
    ensures Writes(s, call, id, c).None? ==> id in s.ops
    ensures Get(Step(s, call).ops[id], c) ==
            if Writes(s, call, id, c).Some? then Writes(s, call, id, c).value else Get(s.ops[id], c)
  {
  }

  /** In every run a column holds what the last call that wrote it wrote, or what it held at the start. */
  lemma {:induction false} LastWriteWins<J>(states: seq<State<J>>, calls: seq<Call<J>>, id: string, c: Column, n: nat)
    returns (k: nat)
    requires Run(states, calls) && n < |states| && id in states[n].ops
    ensures k <= n && forall j :: k <= j < n ==> Writes(states[j], calls[j], id, c).None?
    ensures if k == 0 then id in states[0].ops && Get(states[n].ops[id], c) == Get(states[0].ops[id], c)
            else Writes(states[k - 1], calls[k - 1], id, c) == Some(Get(states[n].ops[id], c))
    decreases n
  {
    hide Step, Writes, Get;
    if n == 0 {
      k := 0;
    } else {
      OneWrite(states[n - 1], calls[n - 1], id, c);
      if Writes(states[n - 1], calls[n - 1], id, c).Some? {
        k := n;
      } else {
        k := LastWriteWins(states, calls, id, c, n - 1);
      }
    }
  }
}
