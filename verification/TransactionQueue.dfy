/**
The promise chain that serialises transactions. Submitting a body makes `result = tail.then(body)` and
`tail = result.then(ignore, ignore)`. The bodies are asynchronous: between two of their steps anything
else that is ready may happen.
*/
module TransactionQueue {

  datatype Promise = Pending | Fulfilled | Rejected

  /** What one step of a body does to the store: go on, or throw and leave the store as it is then. */
  datatype StepResult<S> = Next(store: S) | Throw(store: S)

  type Body<!S> = seq<S -> StepResult<S>>

  datatype Job<!S> = Job(body: Body<S>, started: bool, pc: nat, result: Promise)

  /** `tails[i]` is the promise that job i waits for; `tails[0]` is resolved from the start. */
  datatype Queue<!S> = Queue(store: S, jobs: seq<Job<S>>, tails: seq<Promise>)

  function Empty<S>(store: S): Queue<S> {
    Queue(store, [], [Fulfilled])
  }

  datatype Event<!S> =
    | Submit(body: Body<S>)
    | Start(job: nat)       // the callback on a fulfilled tail runs
    | Propagate(job: nat)   // a rejected tail would reject the result without running the body
    | Run(job: nat)         // one step of a started body
    | Settle(job: nat)      // a body without steps left fulfils its result
    | Pass(job: nat)        // the tail behind a settled result is fulfilled, whichever way it settled

  predicate Enabled<S>(q: Queue<S>, e: Event<S>)
    requires |q.tails| == |q.jobs| + 1
  {
    match e
    case Submit(_) => true
    case Start(i) => i < |q.jobs| && !q.jobs[i].started && q.jobs[i].result == Pending && q.tails[i] == Fulfilled
    case Propagate(i) => i < |q.jobs| && !q.jobs[i].started && q.jobs[i].result == Pending && q.tails[i] == Rejected
    case Run(i) => i < |q.jobs| && q.jobs[i].started && q.jobs[i].result == Pending && q.jobs[i].pc < |q.jobs[i].body|
    case Settle(i) =>
      i < |q.jobs| && q.jobs[i].started && q.jobs[i].result == Pending && q.jobs[i].pc >= |q.jobs[i].body|
    case Pass(i) => i < |q.jobs| && q.jobs[i].result != Pending && q.tails[i + 1] == Pending
  }

  function Apply<S>(q: Queue<S>, e: Event<S>): (q': Queue<S>)
    requires |q.tails| == |q.jobs| + 1 && Enabled(q, e)
    ensures |q'.tails| == |q'.jobs| + 1
  {
    match e
    case Submit(body) => q.(jobs := q.jobs + [Job(body, false, 0, Pending)], tails := q.tails + [Pending])
    case Start(i) => q.(jobs := q.jobs[i := q.jobs[i].(started := true)])
    case Propagate(i) => q.(jobs := q.jobs[i := q.jobs[i].(result := Rejected)])
    case Run(i) =>
      var j := q.jobs[i];
      (match j.body[j.pc](q.store)
       case Next(s) => q.(store := s, jobs := q.jobs[i := j.(pc := j.pc + 1)])
       case Throw(s) => q.(store := s, jobs := q.jobs[i := j.(result := Rejected)]))
    case Settle(i) => q.(jobs := q.jobs[i := q.jobs[i].(result := Fulfilled)])
    case Pass(i) => q.(tails := q.tails[i + 1 := Fulfilled])
  }

  /** The queue after a sequence of events, each of which must be enabled when it happens. */
  ghost predicate Reaches<S>(q: Queue<S>, events: seq<Event<S>>, q': Queue<S>)
    requires |q.tails| == |q.jobs| + 1
    decreases |events|
  {
    if events == [] then q == q'
    else Enabled(q, events[0]) && Reaches(Apply(q, events[0]), events[1..], q')
  }

  // ---------------------------------------------------------------------------------------------
  // Running bodies one after another.

  /** Runs a body from step `pc` on: the store it leaves and how it ends. */
  function RunFrom<S>(body: Body<S>, pc: nat, store: S): (S, Promise)
    decreases |body| - pc
  {
    if pc >= |body| then (store, Fulfilled)
    else
      match body[pc](store)
      case Next(s) => RunFrom(body, pc + 1, s)
      case Throw(s) => (s, Rejected)
  }

  /** The store after the bodies of the first n jobs, run one after another in submission order. */
  function Serial<S>(jobs: seq<Job<S>>, n: nat, store: S): S
    requires n <= |jobs|
  {
    if n == 0 then store else RunFrom(jobs[n - 1].body, 0, Serial(jobs, n - 1, store)).0
  }

  // ---------------------------------------------------------------------------------------------
  // The invariant.

  predicate Settled(p: Promise) {
    p != Pending
  }

  /** Jobs before d are settled and passed; jobs after d have not been touched. */
  ghost predicate Shape<S>(q: Queue<S>, d: nat) {
    && |q.tails| == |q.jobs| + 1 && d <= |q.jobs|
    && (forall i :: 0 <= i <= d ==> q.tails[i] == Fulfilled)
    && (forall i :: d < i < |q.tails| ==> q.tails[i] == Pending)
    && (forall i :: 0 <= i < d ==> q.jobs[i].started && Settled(q.jobs[i].result))
    && (forall i :: d < i < |q.jobs| ==> !q.jobs[i].started && q.jobs[i].result == Pending && q.jobs[i].pc == 0)
    && (d < |q.jobs| && !q.jobs[d].started ==> q.jobs[d].result == Pending && q.jobs[d].pc == 0)
  }

  /** How job d is getting on with the store it found. */
  ghost predicate Current<S>(q: Queue<S>, d: nat, store: S)
    requires d < |q.jobs|
  {
    var j := q.jobs[d];
    if !j.started then q.store == store
    else if j.result == Pending then RunFrom(j.body, j.pc, q.store) == RunFrom(j.body, 0, store)
    else (q.store, j.result) == RunFrom(j.body, 0, store)
  }

  ghost predicate Inv<S>(q: Queue<S>, d: nat, store0: S) {
    && Shape(q, d)
    && (forall i :: 0 <= i < d ==> q.jobs[i].result == RunFrom(q.jobs[i].body, 0, Serial(q.jobs, i, store0)).1)
    && (if d == |q.jobs| then q.store == Serial(q.jobs, d, store0) else Current(q, d, Serial(q.jobs, d, store0)))
  }

  lemma {:induction false} SerialSame<S>(jobs: seq<Job<S>>, jobs': seq<Job<S>>, n: nat, store: S)
    requires n <= |jobs| && n <= |jobs'| && forall i :: 0 <= i < n ==> jobs[i].body == jobs'[i].body
    ensures Serial(jobs, n, store) == Serial(jobs', n, store)
  {
    if n > 0 {
      SerialSame(jobs, jobs', n - 1, store);
    }
  }

  lemma SerialSameAll<S>(jobs: seq<Job<S>>, jobs': seq<Job<S>>, n: nat, store: S)
    requires n <= |jobs| && n <= |jobs'| && forall i :: 0 <= i < n ==> jobs[i].body == jobs'[i].body
    ensures forall i :: 0 <= i <= n ==> Serial(jobs, i, store) == Serial(jobs', i, store)
  {
    forall i | 0 <= i <= n ensures Serial(jobs, i, store) == Serial(jobs', i, store) {
      SerialSame(jobs, jobs', i, store);
    }
  }

  /** Only job d can do anything, and it never finds a rejected tail. */
  lemma OnlyCurrent<S>(q: Queue<S>, d: nat, e: Event<S>)
    requires Shape(q, d) && Enabled(q, e) && !e.Submit?
    ensures !e.Propagate? && e.job == d && d < |q.jobs|
  {
  }

  lemma SubmitKeeps<S>(q: Queue<S>, d: nat, e: Event<S>, store0: S)
    requires Inv(q, d, store0) && e.Submit?
    ensures Inv(Apply(q, e), d, store0)
  {
    hide RunFrom, Serial;
    var q' := Apply(q, e);
    SerialSameAll(q.jobs, q'.jobs, |q.jobs|, store0);
    assert forall i :: 0 <= i < |q.jobs| ==> q'.jobs[i] == q.jobs[i];
  }

  lemma StepKeeps<S>(q: Queue<S>, d: nat, e: Event<S>, store0: S)
    requires Inv(q, d, store0) && Enabled(q, e) && (e.Start? || e.Run? || e.Settle?)
    ensures Inv(Apply(q, e), d, store0)
  {
    hide Serial;
    OnlyCurrent(q, d, e);
    var q' := Apply(q, e);
    SerialSameAll(q.jobs, q'.jobs, |q.jobs|, store0);
  }

  lemma PassKeeps<S>(q: Queue<S>, d: nat, e: Event<S>, store0: S)
    requires Inv(q, d, store0) && Enabled(q, e) && e.Pass?
    ensures Inv(Apply(q, e), d + 1, store0)
  {
    hide RunFrom;
    OnlyCurrent(q, d, e);
    assert Serial(q.jobs, d + 1, store0) == RunFrom(q.jobs[d].body, 0, Serial(q.jobs, d, store0)).0;
  }

  /** Whatever happens, in whatever order, the invariant is kept. */
  lemma {:induction false} InvAlways<S>(q: Queue<S>, d: nat, events: seq<Event<S>>, q': Queue<S>, store0: S)
      returns (d': nat)
    requires |q.tails| == |q.jobs| + 1 && Inv(q, d, store0) && Reaches(q, events, q')
    ensures Inv(q', d', store0)
    decreases |events|
  {
    hide Inv, Apply;
    if events == [] {
      d' := d;
    } else {
      var e := events[0];
      var q1 := Apply(q, e);
      if e.Submit? {
        SubmitKeeps(q, d, e, store0);
        d' := InvAlways(q1, d, events[1..], q', store0);
      } else if e.Pass? {
        PassKeeps(q, d, e, store0);
        d' := InvAlways(q1, d + 1, events[1..], q', store0);
      } else {
        NeverPropagates(q, d, e, store0);
        StepKeeps(q, d, e, store0);
        d' := InvAlways(q1, d, events[1..], q', store0);
      }
    }
  }

  lemma NeverPropagates<S>(q: Queue<S>, d: nat, e: Event<S>, store0: S)
    requires Inv(q, d, store0) && Enabled(q, e)
    ensures !e.Propagate?
  {
    if !e.Submit? {
      OnlyCurrent(q, d, e);
    }
  }

  lemma EmptyInv<S>(store0: S)
    ensures Inv(Empty(store0), 0, store0)
  {
  }

  // ---------------------------------------------------------------------------------------------
  // What the queue promises.

  /** Bodies never overlap: a body that has started finds every earlier one settled, so at most one is running. */
  lemma NeverOverlap<S>(store0: S, events: seq<Event<S>>, q: Queue<S>, i: nat, j: nat)
    requires Reaches(Empty(store0), events, q)
    requires i < j < |q.jobs| && q.jobs[j].started
    ensures q.jobs[i].started && Settled(q.jobs[i].result)
  {
    EmptyInv(store0);
    var d := InvAlways(Empty(store0), 0, events, q, store0);
  }

  lemma LaterIsPending<S>(q: Queue<S>, d: nat)
    requires Shape(q, d) && d + 1 < |q.jobs|
    ensures q.jobs[d + 1].result == Pending
  {
  }

  /** The bodies in the order in which they are submitted. */
  function Submitted<S>(events: seq<Event<S>>): seq<Body<S>> {
    if events == [] then [] else (if events[0].Submit? then [events[0].body] else []) + Submitted(events[1..])
  }

  function Bodies<S>(jobs: seq<Job<S>>): seq<Body<S>> {
    seq(|jobs|, i requires 0 <= i < |jobs| => jobs[i].body)
  }

  lemma BodiesAfter<S>(q: Queue<S>, e: Event<S>)
    requires |q.tails| == |q.jobs| + 1 && Enabled(q, e)
    ensures Bodies(Apply(q, e).jobs) == Bodies(q.jobs) + if e.Submit? then [e.body] else []
  {
  }

  /** The queue holds the submitted bodies, in submission order. */
  lemma {:induction false} JobsAreSubmissions<S>(q: Queue<S>, events: seq<Event<S>>, q': Queue<S>)
    requires |q.tails| == |q.jobs| + 1 && Reaches(q, events, q')
    ensures Bodies(q'.jobs) == Bodies(q.jobs) + Submitted(events)
    decreases |events|
  {
    hide Bodies, Apply, Enabled;
    if events != [] {
      BodiesAfter(q, events[0]);
      JobsAreSubmissions(Apply(q, events[0]), events[1..], q');
    }
  }

  /**
  When every result is settled the store and the results are those of running the bodies one after
  another in submission order, however their steps were scheduled and whichever of them threw.
  */
  lemma EveryScheduleIsSerial<S>(store0: S, events: seq<Event<S>>, q: Queue<S>)
    requires Reaches(Empty(store0), events, q)
    requires forall i :: 0 <= i < |q.jobs| ==> Settled(q.jobs[i].result)
    ensures Bodies(q.jobs) == Submitted(events)
    ensures q.store == Serial(q.jobs, |q.jobs|, store0)
    ensures forall i :: 0 <= i < |q.jobs| ==>
            q.jobs[i].result == RunFrom(q.jobs[i].body, 0, Serial(q.jobs, i, store0)).1
  {
    hide Inv, RunFrom, Serial, Reaches;
    EmptyInv(store0);
    JobsAreSubmissions(Empty(store0), events, q);
    var d := InvAlways(Empty(store0), 0, events, q, store0);
    AllSettled(q, d, store0);
  }

  lemma AllSettled<S>(q: Queue<S>, d: nat, store0: S)
    requires Inv(q, d, store0) && forall i :: 0 <= i < |q.jobs| ==> Settled(q.jobs[i].result)
    ensures q.store == Serial(q.jobs, |q.jobs|, store0)
    ensures forall i :: 0 <= i < |q.jobs| ==>
            q.jobs[i].result == RunFrom(q.jobs[i].body, 0, Serial(q.jobs, i, store0)).1
  {
    hide RunFrom, Serial;
    if d < |q.jobs| {
      if d + 1 < |q.jobs| {
        LaterIsPending(q, d);
        assert false;
      }
      SerialNext(q.jobs, d, store0);
    }
  }

  lemma SerialNext<S>(jobs: seq<Job<S>>, n: nat, store: S)
    requires n < |jobs|
    ensures Serial(jobs, n + 1, store) == RunFrom(jobs[n].body, 0, Serial(jobs, n, store)).0
  {
  }

  /** What can happen next to the job whose turn it is. */
  lemma NextEvent<S>(q: Queue<S>, d: nat, i: nat) returns (e: Event<S>)
    requires Shape(q, d) && i < |q.jobs| && !Settled(q.jobs[i].result)
    ensures !e.Submit? && Enabled(q, e)
  {
    var j := q.jobs[d];
    e := if Settled(j.result) then Pass(d)
         else if !j.started then Start(d)
         else if j.pc < |j.body| then Run(d)
         else Settle(d);
  }

  /** Nothing blocks: while a result is pending, some event other than a submission is possible. */
  lemma SomethingIsEnabled<S>(store0: S, events: seq<Event<S>>, q: Queue<S>, i: nat) returns (e: Event<S>)
    requires Reaches(Empty(store0), events, q)
    requires i < |q.jobs| && !Settled(q.jobs[i].result)
    ensures !e.Submit? && |q.tails| == |q.jobs| + 1 && Enabled(q, e)
  {
    EmptyInv(store0);
    var d := InvAlways(Empty(store0), 0, events, q, store0);
    e := NextEvent(q, d, i);
  }

  /** How much is left to do. */
  function Work<S>(jobs: seq<Job<S>>, tails: seq<Promise>): nat
    requires |tails| == |jobs|
  {
    if jobs == [] then 0
    else
      var j := jobs[0];
      (if Settled(j.result) then 0
       else (if j.started then 0 else 1) + (if j.pc < |j.body| then |j.body| - j.pc else 0) + 1)
      + (if Settled(tails[0]) then 0 else 1)
      + Work(jobs[1..], tails[1..])
  }

  lemma {:induction false} WorkShrinks<S>(jobs: seq<Job<S>>, tails: seq<Promise>, i: nat, j': Job<S>, t': Promise)
    requires |tails| == |jobs| && i < |jobs|
    requires Work([j'], [t']) < Work([jobs[i]], [tails[i]])
    ensures Work(jobs[i := j'], tails[i := t']) < Work(jobs, tails)
    decreases i
  {
    if i == 0 {
      assert jobs[0 := j'][1..] == jobs[1..] && tails[0 := t'][1..] == tails[1..];
    } else {
      WorkShrinks(jobs[1..], tails[1..], i - 1, j', t');
      assert jobs[i := j'][1..] == jobs[1..][i - 1 := j'] && tails[i := t'][1..] == tails[1..][i - 1 := t'];
    }
  }

  function Left<S>(q: Queue<S>): nat
    requires |q.tails| == |q.jobs| + 1
  {
    Work(q.jobs, q.tails[1..])
  }

  /** Each event other than a submission leaves less to do. */
  lemma EventsFinish<S>(q: Queue<S>, e: Event<S>)
    requires |q.tails| == |q.jobs| + 1 && !e.Submit? && Enabled(q, e)
    ensures Left(Apply(q, e)) < Left(q)
  {
    var q', i := Apply(q, e), e.job;
    assert q'.jobs == q.jobs[i := q'.jobs[i]];
    assert q'.tails[1..] == q.tails[1..][i := q'.tails[i + 1]];
    WorkShrinks(q.jobs, q.tails[1..], i, q'.jobs[i], q'.tails[i + 1]);
  }

  ghost predicate NoSubmit<S>(events: seq<Event<S>>) {
    forall i :: 0 <= i < |events| ==> !events[i].Submit?
  }

  ghost predicate AllDone<S>(q: Queue<S>) {
    forall i :: 0 <= i < |q.jobs| ==> Settled(q.jobs[i].result)
  }

  /** Without submissions no run is longer than what is left to do. */
  lemma {:induction false} RunsAreBounded<S>(q: Queue<S>, events: seq<Event<S>>, q': Queue<S>)
    requires |q.tails| == |q.jobs| + 1 && NoSubmit(events) && Reaches(q, events, q')
    ensures |q'.tails| == |q'.jobs| + 1 && |events| + Left(q') <= Left(q)
    decreases |events|
  {
    hide Apply, Enabled, Left;
    if events != [] {
      EventsFinish(q, events[0]);
      RunsAreBounded(Apply(q, events[0]), events[1..], q');
    }
  }

  lemma {:induction false} SettleFrom<S>(q: Queue<S>, d: nat, store0: S) returns (more: seq<Event<S>>, q': Queue<S>)
    requires |q.tails| == |q.jobs| + 1 && Inv(q, d, store0)
    ensures NoSubmit(more) && Reaches(q, more, q') && AllDone(q')
    decreases Left(q)
  {
    hide Apply, Enabled, Left, Inv, Current;
    if AllDone(q) {
      more, q' := [], q;
    } else {
      var i :| 0 <= i < |q.jobs| && !Settled(q.jobs[i].result);
      InvShape(q, d, store0);
      var e := NextEvent(q, d, i);
      EventsFinish(q, e);
      var q1 := Apply(q, e);
      assert Reaches(q, [e], q1) by { assert [e][1..] == []; }
      var d1 := InvAlways(q, d, [e], q1, store0);
      var rest;
      rest, q' := SettleFrom(q1, d1, store0);
      more := [e] + rest;
      assert more[1..] == rest;
    }
  }

  lemma InvShape<S>(q: Queue<S>, d: nat, store0: S)
    requires Inv(q, d, store0)
    ensures Shape(q, d)
  {
  }

  /**
  Every result settles: from every queue that can be reached, every run without further submissions has at
  most as many events as there is left to do, and unless all results are settled it can be continued to
  one after which they are.
  */
  lemma EverythingSettles<S>(store0: S, events: seq<Event<S>>, q: Queue<S>, more: seq<Event<S>>, q': Queue<S>)
    returns (rest: seq<Event<S>>, q'': Queue<S>)
    requires Reaches(Empty(store0), events, q) && |q.tails| == |q.jobs| + 1
    requires NoSubmit(more) && Reaches(q, more, q')
    ensures |q'.tails| == |q'.jobs| + 1 && NoSubmit(rest) && Reaches(q', rest, q'') && AllDone(q'')
    ensures |more| + |rest| <= Left(q)
  {
    hide Inv, Left, Reaches;
    EmptyInv(store0);
    var d := InvAlways(Empty(store0), 0, events, q, store0);
    RunsAreBounded(q, more, q');
    var d' := InvAlways(q, d, more, q', store0);
    rest, q'' := SettleFrom(q', d', store0);
    RunsAreBounded(q', rest, q'');
  }
}
