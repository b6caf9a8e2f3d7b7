/**
Runs of the system around the readiness transaction: deploys, rows written by deploys that passed, and
rows deleted. Registry rows are only ever inserted, since a trigger rejects their update and deletion.
*/
module KeyRuns {
  import opened Wrappers
  import opened QueryHash
  import opened KeyReadiness

  /** Who wrote a row: the query it hashes and the key that was used. */
  datatype Origin = Origin(query: Query, keyId: string, key: Key)

  datatype State = State(
    tables: Tables,
    registry: Registry,
    passed: set<Keyring>,           // every keyring whose deploy has passed so far
    origins: map<(Table, nat), Origin>)

  function Put(ts: Tables, t: Table, rows: seq<Row>): Tables {
    match t
    case TestCaseVersion => ts.(testCases := rows)
    case EvaluationRun => ts.(runs := rows)
    case RetrievalTrace => ts.(traces := rows)
    case LiveToolExecution => ts.(liveTools := rows)
  }

  datatype Event =
    | Deploy(keyring: Keyring)
    | Write(writer: Keyring, table: Table, rowId: nat, query: Query)
    | Delete(table: Table, index: nat)

  /** At the start no row names a key: all hashes are from before the keys were introduced. */
  ghost predicate Init(s: State) {
    && (forall t, i :: 0 <= i < |s.tables.Of(t)| ==> s.tables.Of(t)[i].queryHashKeyId == None)
    && s.passed == {}
  }

  ghost predicate RowIdFree(ts: Tables, t: Table, id: nat) {
    forall i :: 0 <= i < |ts.Of(t)| ==> ts.Of(t)[i].id != id
  }

  /** What the readiness transaction does to the state; a deploy that fails changes nothing. */
  ghost predicate DeployStep(h: Hmac, s: State, k: Keyring, s': State) {
    && k.Consistent(h)
    && s' == if Passes(s.tables, s.registry, k)
             then s.(registry := Registered(h, s.registry, k), passed := s.passed + {k})
             else s
  }

  /** Any deploy that has passed, not only the last one, may still be writing. */
  ghost predicate WriteStep(h: Hmac, s: State, w: Keyring, t: Table, id: nat, q: Query, s': State) {
    && w in s.passed && w.activeKeyId in w.keys && w.Hash(h, q).Some?
    && RowIdFree(s.tables, t, id)
    && s' == s.(tables := Put(s.tables, t, s.tables.Of(t) + [StoredRow(id, w.Hash(h, q).value)]),
                origins := s.origins[(t, id) := Origin(q, w.activeKeyId, w.keys[w.activeKeyId])])
  }

  ghost predicate DeleteStep(s: State, t: Table, index: nat, s': State) {
    && index < |s.tables.Of(t)|
    && s' == s.(tables := Put(s.tables, t, s.tables.Of(t)[..index] + s.tables.Of(t)[index + 1..]))
  }

  ghost predicate Next(h: Hmac, s: State, e: Event, s': State) {
    match e
    case Deploy(k) => DeployStep(h, s, k, s')
    case Write(w, t, id, q) => WriteStep(h, s, w, t, id, q, s')
    case Delete(t, index) => DeleteStep(s, t, index, s')
  }

  ghost predicate Run(h: Hmac, states: seq<State>, events: seq<Event>) {
    && |states| == |events| + 1
    && Init(states[0])
    && forall i :: 0 <= i < |events| ==> Next(h, states[i], events[i], states[i + 1])
  }

  // ---------------------------------------------------------------------------------------------
  // The invariant.

  /** Every key of every deploy that has passed is registered with its own check value. */
  ghost predicate PassedKeysRegistered(h: Hmac, s: State) {
    forall k, id :: k in s.passed && id in k.keys ==>
        id in s.registry && s.registry[id] == Entry(VERSION, h.keyCheck(id, k.keys[id]))
  }

  ghost predicate PassedAreConsistent(h: Hmac, s: State) {
    forall k :: k in s.passed ==> k.Consistent(h)
  }

  /** A row that names a key was written with a key that is registered under that id. */
  ghost predicate RowHolds(h: Hmac, s: State, t: Table, r: Row) {
    r.queryHashKeyId.Some? ==>
      && (t, r.id) in s.origins
      && var o := s.origins[(t, r.id)];
         && o.query.Valid() && ValidKeyId(o.keyId)
         && r == StoredRow(r.id, Binding(h.queryHash(o.query, o.keyId, o.key), o.keyId, VERSION))
         && o.keyId in s.registry
         && s.registry[o.keyId] == Entry(VERSION, h.keyCheck(o.keyId, o.key))
  }

  ghost predicate RowsHold(h: Hmac, s: State) {
    forall t, i :: 0 <= i < |s.tables.Of(t)| ==> RowHolds(h, s, t, s.tables.Of(t)[i])
  }

  ghost predicate Inv(h: Hmac, s: State) {
    PassedAreConsistent(h, s) && PassedKeysRegistered(h, s) && RowsHold(h, s)
  }

  /** A deploy that passes leaves every configured key registered with its own check value. */
  lemma PassRegistersKeys(h: Hmac, ts: Tables, reg: Registry, k: Keyring, id: string)
    requires k.Consistent(h) && Passes(ts, reg, k) && id in k.keys
    ensures var reg' := Registered(h, reg, k); id in reg' && reg'[id] == Entry(VERSION, h.keyCheck(id, k.keys[id]))
  {
    hide HasLegacy, IsRetained, RetainedIds;
    var i :| 0 <= i < |k.checks| && k.checks[i].keyId == id;
    assert Matches(reg, k.checks[i]);
  }

  lemma RegisteredKeeps(h: Hmac, reg: Registry, k: Keyring)
    ensures forall id :: id in reg ==> id in Registered(h, reg, k) && Registered(h, reg, k)[id] == reg[id]
  {
  }

  lemma DeployKeeps(h: Hmac, s: State, k: Keyring, s': State)
    requires Inv(h, s) && DeployStep(h, s, k, s')
    ensures Inv(h, s')
  {
    hide Passes, Registered, Keyring.Consistent;
    if Passes(s.tables, s.registry, k) {
      RegisteredKeeps(h, s.registry, k);
      forall k', id | k' in s'.passed && id in k'.keys
        ensures id in s'.registry && s'.registry[id] == Entry(VERSION, h.keyCheck(id, k'.keys[id]))
      {
        if k' == k {
          PassRegistersKeys(h, s.tables, s.registry, k, id);
        }
      }
      forall t, i | 0 <= i < |s'.tables.Of(t)| ensures RowHolds(h, s', t, s'.tables.Of(t)[i]) {
        assert RowHolds(h, s, t, s.tables.Of(t)[i]);
      }
    }
  }

  lemma PutOf(ts: Tables, t: Table, rows: seq<Row>, t': Table)
    ensures Put(ts, t, rows).Of(t') == if t' == t then rows else ts.Of(t')
  {
  }

  lemma ConsistentActive(h: Hmac, k: Keyring)
    requires k.Consistent(h)
    ensures k.activeKeyId in k.keys && ValidKeyId(k.activeKeyId)
  {
  }

  lemma WriteKeeps(h: Hmac, s: State, w: Keyring, t: Table, id: nat, q: Query, s': State)
    requires Inv(h, s) && WriteStep(h, s, w, t, id, q, s')
    ensures Inv(h, s')
  {
    hide Keyring.Consistent, ValidKeyId, Query.Valid, Put;
    ConsistentActive(h, w);
    forall t', i | 0 <= i < |s'.tables.Of(t')| ensures RowHolds(h, s', t', s'.tables.Of(t')[i]) {
      PutOf(s.tables, t, s.tables.Of(t) + [StoredRow(id, w.Hash(h, q).value)], t');
      if i < |s.tables.Of(t')| {
        assert RowHolds(h, s, t', s.tables.Of(t')[i]);
        assert s'.tables.Of(t')[i] == s.tables.Of(t')[i];
      }
    }
  }

  lemma DeleteKeeps(h: Hmac, s: State, t: Table, index: nat, s': State)
    requires Inv(h, s) && DeleteStep(s, t, index, s')
    ensures Inv(h, s')
  {
    hide Keyring.Consistent, Put;
    forall t', i | 0 <= i < |s'.tables.Of(t')| ensures RowHolds(h, s', t', s'.tables.Of(t')[i]) {
      PutOf(s.tables, t, s.tables.Of(t)[..index] + s.tables.Of(t)[index + 1..], t');
      var j := if t' == t && i >= index then i + 1 else i;
      assert s'.tables.Of(t')[i] == s.tables.Of(t')[j];
      assert RowHolds(h, s, t', s.tables.Of(t')[j]);
    }
  }

  /** Every state of every run satisfies the invariant. */
  lemma {:induction false} InvAlways(h: Hmac, states: seq<State>, events: seq<Event>, n: nat)
    requires Run(h, states, events) && n < |states|
    ensures Inv(h, states[n])
  {
    hide Inv, DeployStep, WriteStep, DeleteStep, Init;
    if n == 0 {
      InitHolds(h, states[0]);
    } else {
      InvAlways(h, states, events, n - 1);
      var s, e, s' := states[n - 1], events[n - 1], states[n];
      assert Next(h, s, e, s');
      match e
      case Deploy(k) => DeployKeeps(h, s, k, s');
      case Write(w, t, id, q) => WriteKeeps(h, s, w, t, id, q, s');
      case Delete(t, index) => DeleteKeeps(h, s, t, index, s');
    }
  }

  lemma InitHolds(h: Hmac, s: State)
    requires Init(s)
    ensures Inv(h, s)
  {
  }

  // ---------------------------------------------------------------------------------------------
  // What the invariant gives.

  /** Two keyrings that match the registry configure the same key under the same id. */
  lemma SameMaterial(h: Hmac, reg: Registry, k: Keyring, id: string, key: Key)
    requires h.Sound() && k.Consistent(h) && id in k.keys && id in reg
    requires forall i :: 0 <= i < |k.checks| ==> Matches(reg, k.checks[i])
    requires reg[id] == Entry(VERSION, h.keyCheck(id, key))
    ensures k.keys[id] == key
  {
    hide ValidDigest, ValidKeyId;
    var i :| 0 <= i < |k.checks| && k.checks[i].keyId == id;
    assert Matches(reg, k.checks[i]);
    assert h.keyCheck(id, k.keys[id]) == h.keyCheck(id, key);
  }

  /** A keyring verifies a stored row against the query it was written for. */
  ghost predicate Verifies(h: Hmac, s: State, k: Keyring, t: Table, r: Row) {
    && (t, r.id) in s.origins
    && r.queryHash.Some? && r.queryHashKeyId.Some? && r.queryHashVersion.Some?
    && k.Verify(h, s.origins[(t, r.id)].query,
       Binding(r.queryHash.value, r.queryHashKeyId.value, r.queryHashVersion.value))
  }

  /** In every run, whichever deploy passes verifies every row that is retained when it passes. */
  lemma RetainedRowsVerify(h: Hmac, states: seq<State>, events: seq<Event>, n: nat, k: Keyring, t: Table, i: nat)
    requires h.Sound() && Run(h, states, events) && n < |states|
    requires k.Consistent(h) && Passes(states[n].tables, states[n].registry, k)
    requires i < |states[n].tables.Of(t)| && states[n].tables.Of(t)[i].queryHashKeyId.Some?
    ensures Verifies(h, states[n], k, t, states[n].tables.Of(t)[i])
  {
    hide Keyring.Consistent, ValidDigest, ValidKeyId, HasLegacy, Query.Valid;
    InvAlways(h, states, events, n);
    var s := states[n];
    var r := s.tables.Of(t)[i];
    assert RowHolds(h, s, t, r);
    var o := s.origins[(t, r.id)];
    NotEmpty(o.keyId);
    assert KeyIdOf(r, o.keyId);
    assert IsRetained(s.tables, o.keyId);
    SameMaterial(h, s.registry, k, o.keyId, o.key);
  }

  /**
  Against which queries a row verifies: those that hash like the one it was written for, under the key
  it was written with.
  */
  lemma RowVerifiesAgainst(h: Hmac, states: seq<State>, events: seq<Event>, n: nat, k: Keyring, t: Table, i: nat,
      q: Query)
    requires h.Sound() && Run(h, states, events) && n < |states|
    requires k.Consistent(h) && Passes(states[n].tables, states[n].registry, k)
    requires i < |states[n].tables.Of(t)| && states[n].tables.Of(t)[i].queryHashKeyId.Some?
    ensures var r := states[n].tables.Of(t)[i];
            && (t, r.id) in states[n].origins && r.queryHash.Some? && r.queryHashVersion.Some?
            && var o := states[n].origins[(t, r.id)];
               k.Verify(h, q, Binding(r.queryHash.value, r.queryHashKeyId.value, r.queryHashVersion.value)) <==>
               q.Valid() && h.queryHash(q, o.keyId, o.key) == h.queryHash(o.query, o.keyId, o.key)
  {
    hide Keyring.Consistent, ValidDigest, ValidKeyId, HasLegacy, Query.Valid;
    RetainedRowsVerify(h, states, events, n, k, t, i);
    InvAlways(h, states, events, n);
    var s := states[n];
    var r := s.tables.Of(t)[i];
    assert RowHolds(h, s, t, r);
    var o := s.origins[(t, r.id)];
    SameMaterial(h, s.registry, k, o.keyId, o.key);
  }

  /** So among queries that do not collide a row verifies against the one it was written for and no other. */
  lemma RowVerifiesItsQueryOnly(h: Hmac, states: seq<State>, events: seq<Event>, n: nat, k: Keyring, t: Table, i: nat,
      q: Query)
    requires h.Sound() && Run(h, states, events) && n < |states|
    requires k.Consistent(h) && Passes(states[n].tables, states[n].registry, k)
    requires i < |states[n].tables.Of(t)| && states[n].tables.Of(t)[i].queryHashKeyId.Some?
    requires forall m :: m in states[n].origins && states[n].origins[m].query != q ==>
               var o := states[n].origins[m]; h.queryHash(q, o.keyId, o.key) != h.queryHash(o.query, o.keyId, o.key)
    ensures var r := states[n].tables.Of(t)[i];
            && (t, r.id) in states[n].origins && r.queryHash.Some? && r.queryHashVersion.Some?
            && (k.Verify(h, q, Binding(r.queryHash.value, r.queryHashKeyId.value, r.queryHashVersion.value)) <==>
                q == states[n].origins[(t, r.id)].query)
  {
    hide Keyring.Verify, Passes, Keyring.Consistent, Run, Query.Valid, ValidDigest;
    RowVerifiesAgainst(h, states, events, n, k, t, i, q);
    var r := states[n].tables.Of(t)[i];
    var o := states[n].origins[(t, r.id)];
    RetainedRowsVerify(h, states, events, n, k, t, i);
    VerifiedIsValid(h, k, o.query, Binding(r.queryHash.value, r.queryHashKeyId.value, r.queryHashVersion.value));
  }

  lemma VerifiedIsValid(h: Hmac, k: Keyring, q: Query, b: Binding)
    requires k.Verify(h, q, b)
    ensures q.Valid()
  {
  }

  lemma NotEmpty(id: string)
    requires ValidKeyId(id)
    ensures id != ""
  {
  }

  /** The registry only grows along a run. */
  lemma {:induction false} RegistryGrows(h: Hmac, states: seq<State>, events: seq<Event>, m: nat, n: nat)
    requires Run(h, states, events) && m <= n < |states|
    ensures forall id :: id in states[m].registry ==>
            id in states[n].registry && states[n].registry[id] == states[m].registry[id]
    ensures states[m].passed <= states[n].passed
    decreases n - m
  {
    hide Passes, Registered, Keyring.Consistent, Init;
    if m < n {
      RegistryGrows(h, states, events, m, n - 1);
      assert Next(h, states[n - 1], events[n - 1], states[n]);
      if events[n - 1].Deploy? {
        RegisteredKeeps(h, states[n - 1].registry, events[n - 1].keyring);
      }
    }
  }

  /**
  An id never passes with two different keys, however far apart the two deploys are and whether or not
  rows or other deploys still used the id in between. Of two deploys that bring different keys for one
  new id, in whichever order the lock admits them, at most one passes.
  */
  lemma OneKeyPerId(h: Hmac, states: seq<State>, events: seq<Event>, m: nat, n: nat, id: string)
    requires h.Sound() && Run(h, states, events) && m <= n < |events|
    requires events[m].Deploy? && events[n].Deploy?
    requires var k := events[m].keyring; Passes(states[m].tables, states[m].registry, k) && id in k.keys
    requires var k := events[n].keyring; Passes(states[n].tables, states[n].registry, k) && id in k.keys
    ensures events[m].keyring.keys[id] == events[n].keyring.keys[id]
  {
    hide Keyring.Consistent, HasLegacy, IsRetained, Inv;
    var k, k' := events[m].keyring, events[n].keyring;
    assert Next(h, states[m], events[m], states[m + 1]) && Next(h, states[n], events[n], states[n + 1]);
    if m < n {
      PassRegistersKeys(h, states[m].tables, states[m].registry, k, id);
      RegistryGrows(h, states, events, m + 1, n);
      SameMaterial(h, states[n].registry, k', id, k.keys[id]);
    }
  }

  /** The row that a write stores. */
  function WrittenRow(h: Hmac, e: Event): Row
    requires e.Write? && e.writer.Hash(h, e.query).Some?
  {
    StoredRow(e.rowId, e.writer.Hash(h, e.query).value)
  }

  /** The event is a write whose row is in the state. */
  ghost predicate WroteRetained(h: Hmac, s: State, e: Event) {
    e.Write? && e.writer.Hash(h, e.query).Some? && WrittenRow(h, e) in s.tables.Of(e.table)
  }

  /** The event is the write of row `r` to table `t`. */
  ghost predicate Wrote(h: Hmac, e: Event, t: Table, r: Row) {
    e.Write? && e.table == t && e.writer.Hash(h, e.query).Some? && WrittenRow(h, e) == r
  }

  lemma StepSource(h: Hmac, s: State, e: Event, s': State, t: Table, r: Row)
    requires Next(h, s, e, s') && r in s'.tables.Of(t) && r !in s.tables.Of(t)
    ensures Wrote(h, e, t, r)
  {
    hide Passes, Registered, Keyring.Consistent, Keyring.Hash, RowIdFree;
    match e
    case Deploy(_) =>
    case Write(w, u, id, q) =>
      PutOf(s.tables, u, s.tables.Of(u) + [WrittenRow(h, e)], t);
    case Delete(u, i) =>
      PutOf(s.tables, u, s.tables.Of(u)[..i] + s.tables.Of(u)[i + 1..], t);
  }

  /** A row that is there was there before or was written since. */
  lemma {:induction false} RowSource(h: Hmac, states: seq<State>, events: seq<Event>, m: nat, n: nat, t: Table, r: Row)
    returns (j: nat)
    requires Run(h, states, events) && m <= n < |states| && r in states[n].tables.Of(t)
    ensures r in states[m].tables.Of(t) || (m <= j < n && Wrote(h, events[j], t, r))
    decreases n - m
  {
    hide Next, Wrote, Init;
    j := m;
    if m < n {
      if r in states[n - 1].tables.Of(t) {
        j := RowSource(h, states, events, m, n - 1, t, r);
      } else {
        j := n - 1;
        StepSource(h, states[n - 1], events[n - 1], states[n], t, r);
      }
    }
  }

  /** What the running deploy, once it has passed, can do with one stored row. */
  lemma RunningVerifiesRow(h: Hmac, s: State, k: Keyring, t: Table, r: Row)
    requires h.Sound() && Inv(h, s) && k in s.passed && r in s.tables.Of(t) && r.queryHashKeyId.Some?
    ensures Verifies(h, s, k, t, r) <==> r.queryHashKeyId.value in k.keys
  {
    hide Keyring.Consistent, ValidDigest, ValidKeyId, Query.Valid;
    assert RowHolds(h, s, t, r);
    var o := s.origins[(t, r.id)];
    if o.keyId in k.keys {
      assert s.registry[o.keyId] == Entry(VERSION, h.keyCheck(o.keyId, k.keys[o.keyId]));
      assert k.keys[o.keyId] == o.key;
    }
  }

  lemma RetainedIsConfigured(h: Hmac, s: State, k: Keyring, t: Table, r: Row)
    requires Inv(h, s) && Passes(s.tables, s.registry, k) && r in s.tables.Of(t) && r.queryHashKeyId.Some?
    ensures r.queryHashKeyId.value in k.keys
  {
    hide Keyring.Consistent, ValidDigest, ValidKeyId, HasLegacy, Query.Valid;
    assert RowHolds(h, s, t, r);
    NotEmpty(r.queryHashKeyId.value);
    assert KeyIdOf(r, r.queryHashKeyId.value);
    assert IsRetained(s.tables, r.queryHashKeyId.value);
  }

  lemma WrittenKey(h: Hmac, e: Event)
    requires e.Write? && e.writer.Hash(h, e.query).Some?
    ensures WrittenRow(h, e).queryHashKeyId == Some(e.writer.activeKeyId)
  {
  }

  /**
  After its deploy has passed, the running deploy verifies every retained row at a later state if and only
  if it configures the active key of every write since then whose row is still there.
  */
  lemma RunningDeployVerifies(h: Hmac, states: seq<State>, events: seq<Event>, m: nat, n: nat)
    requires h.Sound() && Run(h, states, events) && m < n < |states| && events[m].Deploy?
    requires Passes(states[m].tables, states[m].registry, events[m].keyring)
    ensures var s, k := states[n], events[m].keyring;
            (forall t, r :: r in s.tables.Of(t) && r.queryHashKeyId.Some? ==> Verifies(h, s, k, t, r))
            <==> (forall j :: m < j < n && WroteRetained(h, s, events[j]) ==> events[j].writer.activeKeyId in k.keys)
  {
    hide Keyring.Consistent, Keyring.Hash, Passes, Inv, Init, Verifies, WrittenRow;
    var s, k := states[n], events[m].keyring;
    assert Next(h, states[m], events[m], states[m + 1]);
    RegistryGrows(h, states, events, m + 1, n);
    InvAlways(h, states, events, m);
    InvAlways(h, states, events, n);
    if forall j :: m < j < n && WroteRetained(h, s, events[j]) ==> events[j].writer.activeKeyId in k.keys {
      forall t, r | r in s.tables.Of(t) && r.queryHashKeyId.Some? ensures Verifies(h, s, k, t, r) {
        RunningVerifiesRow(h, s, k, t, r);
        var j := RowSource(h, states, events, m + 1, n, t, r);
        if r in states[m + 1].tables.Of(t) {
          RetainedIsConfigured(h, states[m], k, t, r);
        } else {
          WrittenKey(h, events[j]);
          assert WroteRetained(h, s, events[j]);
        }
      }
    }
    if forall t, r :: r in s.tables.Of(t) && r.queryHashKeyId.Some? ==> Verifies(h, s, k, t, r) {
      forall j | m < j < n && WroteRetained(h, s, events[j]) ensures events[j].writer.activeKeyId in k.keys {
        WrittenKey(h, events[j]);
        RunningVerifiesRow(h, s, k, events[j].table, WrittenRow(h, events[j]));
      }
    }
  }

  /** Repeating a passing deploy over the same rows passes again and registers nothing. */
  lemma RepeatRegistersNothing(h: Hmac, ts: Tables, reg: Registry, k: Keyring)
    requires k.Consistent(h) && Passes(ts, reg, k)
    ensures var reg' := Registered(h, reg, k);
            && Passes(ts, reg', k)
            && Registered(h, reg', k) == reg'
            && |k.keys.Keys - reg'.Keys| == 0
  {
    hide HasLegacy, IsRetained, ValidKeyId, Registered;
    var reg' := Registered(h, reg, k);
    RegisteredKeeps(h, reg, k);
    RegisteredTwice(h, reg, k);
    forall i | 0 <= i < |k.checks| ensures Matches(reg', k.checks[i]) {
      PassRegistersKeys(h, ts, reg, k, k.checks[i].keyId);
    }
  }

  lemma RegisteredKeys(h: Hmac, reg: Registry, k: Keyring)
    ensures Registered(h, reg, k).Keys == reg.Keys + k.keys.Keys
    ensures k.keys.Keys <= reg.Keys ==> Registered(h, reg, k) == reg
  {
    if k.keys.Keys <= reg.Keys {
      assert reg.Keys + k.keys.Keys == reg.Keys;
    }
  }

  lemma RegisteredTwice(h: Hmac, reg: Registry, k: Keyring)
    ensures var reg' := Registered(h, reg, k); Registered(h, reg', k) == reg' && |k.keys.Keys - reg'.Keys| == 0
  {
    hide Registered;
    var reg' := Registered(h, reg, k);
    RegisteredKeys(h, reg, k);
    RegisteredKeys(h, reg', k);
    assert k.keys.Keys - reg'.Keys == {};
  }
}
