/**
The readiness transaction that runs before every deploy: it compares the configured keys, the immutable
registry of key checks and the key ids of the retained rows, and fails or registers the new keys.
*/
module KeyReadiness {
  import opened Wrappers
  import opened Counting
  import opened QueryHash

  datatype Entry = Entry(version: string, keyCheck: string)

  type Registry = map<string, Entry>

  datatype Tables = Tables(testCases: seq<Row>, runs: seq<Row>, traces: seq<Row>, liveTools: seq<Row>) {
    function Of(t: Table): seq<Row> {
      match t
      case TestCaseVersion => testCases
      case EvaluationRun => runs
      case RetrievalTrace => traces
      case LiveToolExecution => liveTools
    }
  }

  datatype ReadyError =
    | LegacyRows(total: nat)
    | MissingVerifiers(ids: set<string>)
    | Mismatched(ids: set<string>)
    | Unregistered(ids: set<string>)
    | UniqueViolation

  datatype Summary = Summary(retainedCount: nat, registeredCount: nat)

  // ---------------------------------------------------------------------------------------------
  // What the transaction decides, in terms of the whole registry.

  ghost predicate HasLegacy(ts: Tables) {
    exists t, i :: 0 <= i < |ts.Of(t)| && Legacy(t, ts.Of(t)[i])
  }

  predicate KeyIdOf(r: Row, id: string) {
    r.queryHashKeyId == Some(id) && id != ""
  }

  ghost predicate IsRetained(ts: Tables, id: string) {
    exists t, i :: 0 <= i < |ts.Of(t)| && KeyIdOf(ts.Of(t)[i], id)
  }

  ghost function RetainedIds(ts: Tables): set<string> {
    var rows := ts.testCases + ts.runs + ts.traces + ts.liveTools;
    set r | r in rows && r.queryHashKeyId.Some? && r.queryHashKeyId.value != "" :: r.queryHashKeyId.value
  }

  lemma RetainedIdsAre(ts: Tables)
    ensures forall id :: id in RetainedIds(ts) <==> IsRetained(ts, id)
  {
    var all := ts.testCases + ts.runs + ts.traces + ts.liveTools;
    forall id | id in RetainedIds(ts) ensures IsRetained(ts, id) {
      var r :| r in all && KeyIdOf(r, id);
      var t := if r in ts.testCases then TestCaseVersion else if r in ts.runs then EvaluationRun
               else if r in ts.traces then RetrievalTrace else LiveToolExecution;
      var i :| 0 <= i < |ts.Of(t)| && ts.Of(t)[i] == r;
    }
    forall id | IsRetained(ts, id) ensures id in RetainedIds(ts) {
      var t, i :| 0 <= i < |ts.Of(t)| && KeyIdOf(ts.Of(t)[i], id);
      assert ts.Of(t)[i] in all;
    }
  }

  ghost predicate Matches(reg: Registry, check: KeyCheck) {
    check.keyId in reg ==> reg[check.keyId] == Entry(check.version, check.keyCheck)
  }

  /**
  A deploy passes iff no hash is legacy, every retained id is configured and registered, and no
  configured check differs.
  */
  ghost predicate Passes(ts: Tables, reg: Registry, k: Keyring) {
    && !HasLegacy(ts)
    && (forall id :: IsRetained(ts, id) ==> id in k.keys && id in reg)
    && (forall i :: 0 <= i < |k.checks| ==> Matches(reg, k.checks[i]))
  }

  /** The registry after a deploy that passed: nothing is changed, every configured key is in it. */
  function Registered(h: Hmac, reg: Registry, k: Keyring): Registry {
    map id | id in reg.Keys + k.keys.Keys :: if id in reg then reg[id] else Entry(VERSION, h.keyCheck(id, k.keys[id]))
  }

  // ---------------------------------------------------------------------------------------------
  // The queries and filters of the transaction.

  function CountLegacy(t: Table, rows: seq<Row>): nat {
    if rows == [] then 0 else (if Legacy(t, rows[0]) then 1 else 0) + CountLegacy(t, rows[1..])
  }

  /** How many rows of the four tables are legacy. */
  ghost function LegacyTotal(ts: Tables): nat {
    |Places(r => Legacy(TestCaseVersion, r), ts.testCases)| + |Places(r => Legacy(EvaluationRun, r), ts.runs)|
    + |Places(r => Legacy(RetrievalTrace, r), ts.traces)| + |Places(r => Legacy(LiveToolExecution, r), ts.liveTools)|
  }

  lemma {:induction false} CountLegacyIs(t: Table, rows: seq<Row>)
    ensures CountLegacy(t, rows) == |Places(r => Legacy(t, r), rows)|
  {
    if rows == [] {
      PlacesNone<Row>(r => Legacy(t, r));
    } else {
      CountLegacyIs(t, rows[1..]);
      PlacesCons(r => Legacy(t, r), rows);
    }
  }

  lemma TotalIs(ts: Tables)
    ensures CountLegacy(TestCaseVersion, ts.testCases) + CountLegacy(EvaluationRun, ts.runs)
            + CountLegacy(RetrievalTrace, ts.traces) + CountLegacy(LiveToolExecution, ts.liveTools) == LegacyTotal(ts)
  {
    hide CountLegacy;
    CountLegacyIs(TestCaseVersion, ts.testCases);
    CountLegacyIs(EvaluationRun, ts.runs);
    CountLegacyIs(RetrievalTrace, ts.traces);
    CountLegacyIs(LiveToolExecution, ts.liveTools);
  }

  lemma {:induction false} CountLegacyPositive(t: Table, rows: seq<Row>)
    ensures CountLegacy(t, rows) > 0 <==> exists i :: 0 <= i < |rows| && Legacy(t, rows[i])
  {
    if rows != [] {
      CountLegacyPositive(t, rows[1..]);
      assert forall i :: 0 < i < |rows| ==> rows[i] == rows[1..][i - 1];
    }
  }

  lemma NoLegacy(ts: Tables)
    ensures CountLegacy(TestCaseVersion, ts.testCases) + CountLegacy(EvaluationRun, ts.runs)
            + CountLegacy(RetrievalTrace, ts.traces) + CountLegacy(LiveToolExecution, ts.liveTools) == 0
            <==> !HasLegacy(ts)
  {
    hide Legacy, CountLegacy;
    CountLegacyPositive(TestCaseVersion, ts.Of(TestCaseVersion));
    CountLegacyPositive(EvaluationRun, ts.Of(EvaluationRun));
    CountLegacyPositive(RetrievalTrace, ts.Of(RetrievalTrace));
    CountLegacyPositive(LiveToolExecution, ts.Of(LiveToolExecution));
    assert !HasLegacy(ts) <==> forall t :: !exists i :: 0 <= i < |ts.Of(t)| && Legacy(t, ts.Of(t)[i]);
  }

  function RegistryView(reg: Registry, ids: seq<string>): Registry {
    map id | id in reg && id in ids :: reg[id]
  }

  function ToRegister(checks: seq<KeyCheck>, view: Registry, retained: set<string>): seq<KeyCheck> {
    if checks == [] then []
    else
      (if checks[0].keyId !in view && checks[0].keyId !in retained then [checks[0]] else [])
      + ToRegister(checks[1..], view, retained)
  }

  /** `createMany`: fails when a primary key is taken. */
  function CreateMany(reg: Registry, data: seq<KeyCheck>): Option<Registry>
    decreases |data|
  {
    if data == [] then Some(reg)
    else if data[0].keyId in reg then None
    else CreateMany(reg[data[0].keyId := Entry(data[0].version, data[0].keyCheck)], data[1..])
  }

  ghost predicate DistinctIds(checks: seq<KeyCheck>) {
    forall i, j :: 0 <= i < j < |checks| ==> checks[i].keyId != checks[j].keyId
  }

  ghost function CheckIds(checks: seq<KeyCheck>): set<string> {
    set c | c in checks :: c.keyId
  }

  lemma Cons(checks: seq<KeyCheck>)
    requires checks != [] && DistinctIds(checks)
    ensures var c, rest := checks[0], checks[1..];
            && CheckIds(checks) == {c.keyId} + CheckIds(rest)
            && DistinctIds(rest) && c.keyId !in CheckIds(rest)
            && (forall x :: x in checks <==> x == c || x in rest)
  {
    var c, rest := checks[0], checks[1..];
    assert checks == [c] + rest;
    forall x | x in rest ensures x.keyId != c.keyId {
      var i :| 0 <= i < |rest| && rest[i] == x;
      assert checks[0].keyId != checks[i + 1].keyId;
    }
  }

  /** The view of configured ids and the extra filter on retained ids select the unregistered checks. */
  lemma {:induction false} FiltersAgree(checks: seq<KeyCheck>, view: Registry, retained: set<string>, reg: Registry)
    requires forall c :: c in checks ==>
             (c.keyId in view <==> c.keyId in reg) && (c.keyId in retained ==> c.keyId in reg)
    ensures ToRegister(checks, view, retained) == ToRegister(checks, reg, {})
  {
    if checks != [] {
      FiltersAgree(checks[1..], view, retained, reg);
    }
  }

  /** `reg'` is `reg` with the unregistered ones of `checks` added. */
  ghost predicate Adds(reg: Registry, checks: seq<KeyCheck>, reg': Registry) {
    && reg'.Keys == reg.Keys + CheckIds(checks)
    && (forall id :: id in reg ==> reg'[id] == reg[id])
    && (forall c :: c in checks && c.keyId !in reg ==> reg'[c.keyId] == Entry(c.version, c.keyCheck))
  }

  function With(reg: Registry, c: KeyCheck): Registry {
    reg[c.keyId := Entry(c.version, c.keyCheck)]
  }

  lemma AddsRegistered(reg: Registry, checks: seq<KeyCheck>, reg': Registry)
    requires checks != [] && DistinctIds(checks) && checks[0].keyId in reg && Adds(reg, checks[1..], reg')
    ensures Adds(reg, checks, reg')
  {
    hide DistinctIds, CheckIds;
    Cons(checks);
  }

  lemma AddsNew(reg: Registry, checks: seq<KeyCheck>, reg': Registry)
    requires checks != [] && DistinctIds(checks) && checks[0].keyId !in reg
    requires Adds(With(reg, checks[0]), checks[1..], reg')
    ensures Adds(reg, checks, reg')
  {
    hide DistinctIds, CheckIds;
    Cons(checks);
    var c, rest := checks[0], checks[1..];
    var reg1 := With(reg, c);
    assert reg1.Keys == reg.Keys + {c.keyId};
    assert reg'.Keys == reg.Keys + CheckIds(checks);
    assert c.keyId in reg1 && reg'[c.keyId] == Entry(c.version, c.keyCheck);
    forall x | x in checks && x.keyId !in reg ensures x.keyId in reg' && reg'[x.keyId] == Entry(x.version, x.keyCheck) {
      IdsApart(rest, c.keyId);
      CheckIdIn(checks, x);
    }
    forall id | id in reg ensures id in reg' && reg'[id] == reg[id] {
      assert id in reg1 && reg1[id] == reg[id];
    }
  }

  lemma CheckIdIn(checks: seq<KeyCheck>, c: KeyCheck)
    requires c in checks
    ensures c.keyId in CheckIds(checks)
  {
  }

  lemma IdsApart(checks: seq<KeyCheck>, id: string)
    requires id !in CheckIds(checks)
    ensures forall x :: x in checks ==> x.keyId != id
  {
  }

  lemma UnfoldToRegister(checks: seq<KeyCheck>, reg: Registry)
    requires checks != []
    ensures checks[0].keyId in reg ==> ToRegister(checks, reg, {}) == ToRegister(checks[1..], reg, {})
    ensures checks[0].keyId !in reg ==> ToRegister(checks, reg, {}) == [checks[0]] + ToRegister(checks[1..], reg, {})
  {
  }

  lemma UnfoldCreateMany(reg: Registry, c: KeyCheck, data: seq<KeyCheck>)
    requires c.keyId !in reg
    ensures CreateMany(reg, [c] + data) == CreateMany(With(reg, c), data)
  {
    assert ([c] + data)[1..] == data;
  }

  /** Inserting the unregistered checks never collides. */
  lemma {:induction false} InsertsNeverCollide(reg: Registry, checks: seq<KeyCheck>)
    requires DistinctIds(checks)
    ensures var data := ToRegister(checks, reg, {});
            CreateMany(reg, data).Some? && Adds(reg, checks, CreateMany(reg, data).value)
    decreases |checks|
  {
    if checks == [] {
      return;
    }
    hide Adds, CheckIds, DistinctIds, ToRegister, CreateMany;
    Cons(checks);
    UnfoldToRegister(checks, reg);
    var c, rest := checks[0], checks[1..];
    if c.keyId in reg {
      InsertsNeverCollide(reg, rest);
      AddsRegistered(reg, checks, CreateMany(reg, ToRegister(rest, reg, {})).value);
    } else {
      var reg1 := With(reg, c);
      IdsApart(rest, c.keyId);
      FiltersAgree(rest, reg, {}, reg1);
      InsertsNeverCollide(reg1, rest);
      UnfoldCreateMany(reg, c, ToRegister(rest, reg1, {}));
      AddsNew(reg, checks, CreateMany(reg1, ToRegister(rest, reg1, {})).value);
    }
  }

  /** One insertion for each configured id that is not registered. */
  lemma {:induction false} CountInserts(reg: Registry, checks: seq<KeyCheck>)
    requires DistinctIds(checks)
    ensures |ToRegister(checks, reg, {})| == |CheckIds(checks) - reg.Keys|
  {
    hide DistinctIds, ToRegister, CheckIds;
    if checks == [] {
      CountNone(reg);
    } else {
      Cons(checks);
      UnfoldToRegister(checks, reg);
      CountInserts(reg, checks[1..]);
      CountOne(checks[0].keyId, CheckIds(checks[1..]), reg.Keys);
    }
  }

  lemma CountNone(reg: Registry)
    ensures |ToRegister([], reg, {})| == |CheckIds([]) - reg.Keys| == 0
  {
    assert CheckIds([]) - reg.Keys == {};
  }

  lemma CountOne(id: string, ids: set<string>, known: set<string>)
    requires id !in ids
    ensures |({id} + ids) - known| == (if id in known then 0 else 1) + |ids - known|
  {
    if id in known {
      assert ({id} + ids) - known == ids - known;
    } else {
      assert ({id} + ids) - known == {id} + (ids - known);
    }
  }

  lemma RegisteredIs(h: Hmac, reg: Registry, k: Keyring, reg': Registry)
    requires k.Consistent(h) && Adds(reg, k.checks, reg')
    ensures reg' == Registered(h, reg, k)
  {
    hide Keyring.Consistent;
    ConsistentChecks(h, k);
    assert CheckIds(k.checks) == k.keys.Keys;
    var r := Registered(h, reg, k);
    forall id | id in r ensures reg'[id] == r[id] {
      if id !in reg {
        assert id in CheckIds(k.checks);
        var c :| c in k.checks && c.keyId == id;
      }
    }
  }

  /** What consistency gives, in terms of membership. */
  lemma ConsistentChecks(h: Hmac, k: Keyring)
    requires k.Consistent(h)
    ensures DistinctIds(k.checks)
    ensures forall c :: c in k.checks ==>
            c.keyId in k.keys && c == KeyCheck(c.keyId, VERSION, h.keyCheck(c.keyId, k.keys[c.keyId]))
    ensures CheckIds(k.checks) == k.keys.Keys
    ensures forall id :: id in k.keys <==> id in k.VerificationKeyIds()
  {
    forall id | id in k.keys ensures id in CheckIds(k.checks) && id in k.VerificationKeyIds() {
      var i :| 0 <= i < |k.checks| && k.checks[i].keyId == id;
      assert k.checks[i] in k.checks && k.VerificationKeyIds()[i] == id;
    }
  }

  /** The database that the transaction works on. */
  class Database {
    var tables: Tables
    var registry: Registry

    /** The nested loops that collect the retained key ids. */
    method CollectRetained() returns (retained: set<string>)
      ensures retained == RetainedIds(tables)
    {
      retained := {};
      var groups := [TestCaseVersion, EvaluationRun, RetrievalTrace, LiveToolExecution];
      for g := 0 to |groups|
        invariant forall id :: id in retained <==>
                  exists t, i :: t in groups[..g] && 0 <= i < |tables.Of(t)| && KeyIdOf(tables.Of(t)[i], id)
      {
        var group := tables.Of(groups[g]);
        ghost var before := retained;
        for j := 0 to |group|
          invariant forall id :: id in retained <==> id in before || exists i :: 0 <= i < j && KeyIdOf(group[i], id)
        {
          var row := group[j];
          if row.queryHashKeyId.Some? && row.queryHashKeyId.value != "" {
            retained := retained + {row.queryHashKeyId.value};
          }
        }
        assert groups[..g + 1] == groups[..g] + [groups[g]];
      }
      RetainedIdsAre(tables);
      assert groups[..|groups|] == groups;
      forall t: Table ensures t in groups {
        assert t in [TestCaseVersion, EvaluationRun, RetrievalTrace, LiveToolExecution] by { AllTables(t); }
      }
    }

    /** The readiness transaction. */
    method Ready(ghost h: Hmac, keyring: Keyring) returns (r: Result<Summary, ReadyError>)
      requires keyring.Consistent(h)
      modifies this`registry
      ensures r.Ok? <==> Passes(tables, old(registry), keyring)
      ensures r.Err? ==> registry == old(registry) && r.error != UniqueViolation
      ensures r.Err? && r.error.LegacyRows? <==> HasLegacy(tables)
      ensures r.Err? && r.error.LegacyRows? ==> r.error.total == LegacyTotal(tables)
      ensures !HasLegacy(tables) ==>
                var missing, other, unknown := RetainedIds(tables) - keyring.keys.Keys,
                                               Mismatches(keyring.checks, old(registry)),
                                               RetainedIds(tables) - old(registry).Keys;
                if missing != {} then r == Err(MissingVerifiers(missing))
                else if other != {} then r == Err(Mismatched(other))
                else if unknown != {} then r == Err(Unregistered(unknown))
                else r.Ok?
      ensures r.Ok? ==> registry == Registered(h, old(registry), keyring)
      ensures r.Ok? ==> r.value.retainedCount == |RetainedIds(tables)|
      ensures r.Ok? ==> r.value.registeredCount == |keyring.keys.Keys - old(registry).Keys|
    {
      hide Passes, HasLegacy, IsRetained, Legacy, Keyring.Consistent, CountLegacy, Registered, RetainedIds, LegacyTotal,
           ToRegister, CreateMany, Mismatches, RegistryView;
      var total := CountLegacy(TestCaseVersion, tables.testCases) + CountLegacy(EvaluationRun, tables.runs)
                   + CountLegacy(RetrievalTrace, tables.traces) + CountLegacy(LiveToolExecution, tables.liveTools);
      NoLegacy(tables);
      TotalIs(tables);
      if total > 0 {
        PassesNeedsNoLegacy(tables, registry, keyring);
        return Err(LegacyRows(total));
      }
      var retained := CollectRetained();
      var configured := keyring.keys.Keys;
      var missing := set id | id in retained && id !in configured;
      var view := RegistryView(registry, keyring.VerificationKeyIds());
      var mismatched := Mismatches(keyring.checks, view);
      var unregistered := set id | id in retained && id !in view;
      Decide(h, tables, registry, keyring, retained);
      ErrorSets(h, registry, keyring, retained);
      if missing != {} {
        return Err(MissingVerifiers(missing));
      }
      if mismatched != {} {
        return Err(Mismatched(mismatched));
      }
      if unregistered != {} {
        return Err(Unregistered(unregistered));
      }
      var registrations := ToRegister(keyring.checks, view, retained);
      Insert(h, tables, registry, keyring, retained);
      if |registrations| > 0 {
        var created := CreateMany(registry, registrations);
        if created.None? {
          return Err(UniqueViolation);
        }
        registry := created.value;
      }
      r := Ok(Summary(|retained|, |registrations|));
    }
  }

  lemma AllTables(t: Table)
    ensures t in [TestCaseVersion, EvaluationRun, RetrievalTrace, LiveToolExecution]
  {
    var all := [TestCaseVersion, EvaluationRun, RetrievalTrace, LiveToolExecution];
    assert all[0] == TestCaseVersion && all[1] == EvaluationRun;
    assert all[2] == RetrievalTrace && all[3] == LiveToolExecution;
  }

  lemma PassesNeedsNoLegacy(ts: Tables, reg: Registry, k: Keyring)
    ensures Passes(ts, reg, k) ==> !HasLegacy(ts)
  {
    hide HasLegacy;
  }

  function Mismatches(checks: seq<KeyCheck>, view: Registry): set<string> {
    set c | c in checks && c.keyId in view && view[c.keyId] != Entry(c.version, c.keyCheck) :: c.keyId
  }

  /** Looking at the rows of configured ids only, the three comparisons decide what the whole registry decides. */
  lemma Decide(h: Hmac, ts: Tables, reg: Registry, k: Keyring, retained: set<string>)
    requires k.Consistent(h) && !HasLegacy(ts) && retained == RetainedIds(ts)
    ensures var view := RegistryView(reg, k.VerificationKeyIds());
            Passes(ts, reg, k) <==>
            && (set id | id in retained && id !in k.keys.Keys) == {}
            && Mismatches(k.checks, view) == {}
            && (set id | id in retained && id !in view) == {}
  {
    hide Keyring.Consistent, HasLegacy, IsRetained, Passes, RetainedIds;
    ConsistentChecks(h, k);
    PassesIs(ts, reg, k);
    var view := RegistryView(reg, k.VerificationKeyIds());
    assert forall id :: id in k.keys ==> (id in view <==> id in reg);
    assert Mismatches(k.checks, view) == {} <==> forall c :: c in k.checks ==> Matches(reg, c) by {
      MismatchesIs(k.checks, view);
    }
    NoneMissing(retained, k.keys.Keys);
    NoneMissing(retained, view.Keys);
  }

  /** What the failures name, in terms of the whole registry. */
  lemma ErrorSets(h: Hmac, reg: Registry, k: Keyring, retained: set<string>)
    requires k.Consistent(h)
    ensures var view := RegistryView(reg, k.VerificationKeyIds());
            && (set id | id in retained && id !in k.keys.Keys) == retained - k.keys.Keys
            && Mismatches(k.checks, view) == Mismatches(k.checks, reg)
            && (retained - k.keys.Keys == {} ==> (set id | id in retained && id !in view) == retained - reg.Keys)
  {
    hide Keyring.Consistent;
    ConsistentChecks(h, k);
    var view := RegistryView(reg, k.VerificationKeyIds());
    assert forall id :: id in retained && id !in k.keys.Keys ==> id in retained - k.keys.Keys;
    assert forall id :: id in k.keys ==> (id in view <==> id in reg) && (id in view ==> view[id] == reg[id]);
  }

  lemma NoneMissing(ids: set<string>, known: set<string>)
    ensures (set id | id in ids && id !in known) == {} <==> forall id :: id in ids ==> id in known
  {
    var missing := set id | id in ids && id !in known;
    assert forall id :: id in missing <==> id in ids && id !in known;
  }

  lemma MismatchesIs(checks: seq<KeyCheck>, view: Registry)
    ensures Mismatches(checks, view) == {} <==> forall c :: c in checks ==> Matches(view, c)
  {
    if Mismatches(checks, view) == {} {
      forall c | c in checks ensures Matches(view, c) {
        assert !Matches(view, c) ==> c.keyId in Mismatches(checks, view);
      }
    }
  }

  /** When the deploy passes, `createMany` succeeds and the registry is what it must be. */
  lemma Insert(h: Hmac, ts: Tables, reg: Registry, k: Keyring, retained: set<string>)
    requires k.Consistent(h) && retained == RetainedIds(ts) && Passes(ts, reg, k)
    ensures var data := ToRegister(k.checks, RegistryView(reg, k.VerificationKeyIds()), retained);
            && CreateMany(reg, data) == Some(Registered(h, reg, k))
            && |data| == |k.keys.Keys - reg.Keys|
            && (data == [] ==> Registered(h, reg, k) == reg)
  {
    hide Keyring.Consistent, HasLegacy, IsRetained, Passes, RetainedIds, ToRegister, CreateMany, Registered, Adds,
         CheckIds, DistinctIds;
    ConsistentChecks(h, k);
    PassesIs(ts, reg, k);
    FiltersAgree(k.checks, RegistryView(reg, k.VerificationKeyIds()), retained, reg);
    InsertsNeverCollide(reg, k.checks);
    CountInserts(reg, k.checks);
    RegisteredIs(h, reg, k, CreateMany(reg, ToRegister(k.checks, reg, {})).value);
    CreateNone(reg);
  }

  lemma CreateNone(reg: Registry)
    ensures CreateMany(reg, []) == Some(reg)
  {
  }

  /** Passing, with the retained ids as members. */
  lemma PassesIs(ts: Tables, reg: Registry, k: Keyring)
    ensures Passes(ts, reg, k) <==>
            && !HasLegacy(ts)
            && (forall id :: id in RetainedIds(ts) ==> id in k.keys && id in reg)
            && (forall c :: c in k.checks ==> Matches(reg, c))
  {
    hide HasLegacy, IsRetained, RetainedIds;
    RetainedIdsAre(ts);
  }
}
