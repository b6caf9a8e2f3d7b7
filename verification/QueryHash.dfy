/**
Query hashes and their metadata: the patterns, the keyring that creates and verifies hashes, the stored
rows, and the CHECK constraints of the four tables that keep hashes.
*/
module QueryHash {
  import opened Wrappers

  const VERSION := "knowledge-query-hmac-sha256-v1"

  type Key = seq<bv8>

  predicate Alphanumeric(c: char) {
    'a' <= c <= 'z' || 'A' <= c <= 'Z' || '0' <= c <= '9'
  }

  predicate ValidKeyId(s: string) {
    && 1 <= |s| <= 128
    && Alphanumeric(s[0])
    && forall i :: 1 <= i < |s| ==> Alphanumeric(s[i]) || s[i] == '.' || s[i] == '_' || s[i] == '-'
  }

  predicate ValidDigest(s: string) {
    |s| == 64 && forall i :: 0 <= i < 64 ==> 'a' <= s[i] <= 'f' || '0' <= s[i] <= '9'
  }

  /**
  A key id is a letter or digit and up to 127 letters, digits, dots, underscores and hyphens; a digest
  64 hex digits.
  */
  lemma PatternsAre(s: string)
    ensures ValidKeyId(s) <==>
            && 0 < |s| < 129 && s[0] !in {'.', '_', '-'}
            && forall c :: c in s ==> c in {'.', '_', '-'} || 'A' <= c <= 'Z' || 'a' <= c <= 'z' || '0' <= c <= '9'
    ensures ValidDigest(s) <==>
            |s| == 64 && forall c :: c in s ==> '0' <= c <= '9' || c in {'a', 'b', 'c', 'd', 'e', 'f'}
  {
    if ValidKeyId(s) {
      assert forall c :: c in s ==> exists i :: 0 <= i < |s| && s[i] == c;
    } else if 0 < |s| < 129 && s[0] !in {'.', '_', '-'} && Alphanumeric(s[0]) {
      assert exists i :: 1 <= i < |s| && !(Alphanumeric(s[i]) || s[i] == '.' || s[i] == '_' || s[i] == '-');
    } else if |s| > 0 {
      assert s[0] in s;
    }
    assert forall i :: 0 <= i < |s| ==> s[i] in s;
  }

  /** Control and format characters: the Unicode categories Cc and Cf. */
  predicate ControlOrFormat(c: char) {
    var n := c as int;
    n <= 31 || 127 <= n <= 159 || n == 0xAD || 0x600 <= n <= 0x605 || n == 0x61C || n == 0x6DD || n == 0x70F ||
    0x890 <= n <= 0x891 || n == 0x8E2 || n == 0x180E || 0x200B <= n <= 0x200F || 0x202A <= n <= 0x202E ||
    0x2060 <= n <= 0x2064 || 0x2066 <= n <= 0x206F || n == 0xFEFF || 0xFFF9 <= n <= 0xFFFB || n == 0x110BD ||
    n == 0x110CD || 0x13430 <= n <= 0x1343F || 0x1BCA0 <= n <= 0x1BCA3 || 0x1D173 <= n <= 0x1D17A ||
    n == 0xE0001 || 0xE0020 <= n <= 0xE007F
  }

  datatype Query = Query(tenantId: string, purpose: string, value: string) {
    predicate Valid() {
      && 1 <= |tenantId| <= 200
      && (forall i :: 0 <= i < |tenantId| ==> !ControlOrFormat(tenantId[i]))
      && purpose in ["ORIGINAL_QUERY", "PROCESSOR_QUERY", "TEST_QUERY"]
    }
  }

  /** The two uses of HMAC-SHA-256: the check value of a key, and the hash of a query under a key. */
  datatype Hmac = Hmac(keyCheck: (string, Key) -> string, queryHash: (Query, string, Key) -> string) {
    /** What is assumed of it: hex digests, and no two keys with the same check value for one key id. */
    ghost predicate Sound() {
      && (forall q, id, k :: ValidDigest(queryHash(q, id, k)))
      && (forall id, k, k' :: keyCheck(id, k) == keyCheck(id, k') ==> k == k')
    }
  }

  datatype Binding = Binding(hash: string, keyId: string, version: string)

  datatype KeyCheck = KeyCheck(keyId: string, version: string, keyCheck: string)

  datatype KeyringError = InvalidActiveKeyId | NoKeys | InvalidEntry | ActiveKeyMissing

  /** Id in `order` and no id twice. */
  ghost predicate Enumerates(order: seq<string>, ids: set<string>) {
    && (forall i :: 0 <= i < |order| ==> order[i] in ids)
    && (forall id :: id in ids ==> id in order)
    && (forall i, j :: 0 <= i < j < |order| ==> order[i] != order[j])
  }

  datatype Keyring = Keyring(activeKeyId: string, keys: map<string, Key>, checks: seq<KeyCheck>) {

    function VerificationKeyIds(): seq<string> {
      seq(|checks|, i requires 0 <= i < |checks| => checks[i].keyId)
    }

    /** The check values are those of the keys, one for each key id. */
    ghost predicate Consistent(h: Hmac) {
      && activeKeyId in keys
      && (forall id :: id in keys ==> ValidKeyId(id))
      && (forall i :: 0 <= i < |checks| ==> checks[i].keyId in keys)
      && (forall i :: 0 <= i < |checks| ==>
            checks[i] == KeyCheck(checks[i].keyId, VERSION, h.keyCheck(checks[i].keyId, keys[checks[i].keyId])))
      && (forall i, j :: 0 <= i < j < |checks| ==> checks[i].keyId != checks[j].keyId)
      && (forall id :: id in keys ==> exists i :: 0 <= i < |checks| && checks[i].keyId == id)
    }

    /** The binding of a query to the active key; nothing for an invalid query. */
    function Hash(h: Hmac, q: Query): Option<Binding> {
      if !q.Valid() || activeKeyId !in keys then None
      else Some(Binding(h.queryHash(q, activeKeyId, keys[activeKeyId]), activeKeyId, VERSION))
    }

    predicate Verify(h: Hmac, q: Query, b: Binding) {
      && q.Valid()
      && b.version == VERSION
      && ValidKeyId(b.keyId)
      && ValidDigest(b.hash)
      && b.keyId in keys
      && h.queryHash(q, b.keyId, keys[b.keyId]) == b.hash
    }
  }

  /** `order` is the order in which sorting the key ids puts them. */
  function CreateKeyring(h: Hmac, activeKeyId: string, keys: map<string, Key>, order: seq<string>)
    : Result<Keyring, KeyringError>
    requires forall i :: 0 <= i < |order| ==> order[i] in keys
  {
    if !ValidKeyId(activeKeyId) then Err(InvalidActiveKeyId)
    else if keys == map[] then Err(NoKeys)
    else if exists id :: id in keys && (!ValidKeyId(id) || |keys[id]| != 32) then Err(InvalidEntry)
    else if activeKeyId !in keys then Err(ActiveKeyMissing)
    else
      var checks := seq(|order|, i requires 0 <= i < |order| =>
        KeyCheck(order[i], VERSION, h.keyCheck(order[i], keys[order[i]])));
      Ok(Keyring(activeKeyId, keys, checks))
  }

  /** Every keyring that is created is consistent, and verifies what it hashes. */
  lemma CreatedKeyring(h: Hmac, activeKeyId: string, keys: map<string, Key>, order: seq<string>, q: Query)
    requires Enumerates(order, keys.Keys) && h.Sound()
    requires CreateKeyring(h, activeKeyId, keys, order).Ok?
    ensures var k := CreateKeyring(h, activeKeyId, keys, order).value;
            && k.Consistent(h) && k.VerificationKeyIds() == order
            && k.Hash(h, q).Some? == q.Valid()
            && (q.Valid() ==> k.Verify(h, q, k.Hash(h, q).value))
  {
    hide ValidDigest, ValidKeyId, Query.Valid;
    var k := CreateKeyring(h, activeKeyId, keys, order).value;
    forall id | id in keys ensures exists i :: 0 <= i < |k.checks| && k.checks[i].keyId == id {
      assert id in order;
      var i :| 0 <= i < |order| && order[i] == id;
      assert k.checks[i].keyId == id;
    }
  }

  /** Which inputs make a keyring, and what is reported for the others, checked in this order. */
  lemma CreatedExactly(h: Hmac, activeKeyId: string, keys: map<string, Key>, order: seq<string>)
    requires Enumerates(order, keys.Keys)
    ensures var r := CreateKeyring(h, activeKeyId, keys, order);
            && (r.Ok? <==> && ValidKeyId(activeKeyId) && activeKeyId in keys
                           && forall id :: id in keys ==> ValidKeyId(id) && |keys[id]| == 32)
            && (r == Err(InvalidActiveKeyId) <==> !ValidKeyId(activeKeyId))
            && (r == Err(NoKeys) <==> ValidKeyId(activeKeyId) && order == [])
            && (r == Err(ActiveKeyMissing) ==> activeKeyId !in keys)
            && (r == Err(InvalidEntry) ==> exists id :: id in keys && (!ValidKeyId(id) || |keys[id]| != 32))
  {
    hide ValidKeyId;
    assert keys == map[] <==> order == [] by {
      if keys != map[] {
        var id :| id in keys;
        assert id in order;
      }
      assert order != [] ==> order[0] in keys;
    }
  }

  /** A binding that verifies is the only one for its query and key id. */
  lemma OneBindingVerifies(h: Hmac, k: Keyring, q: Query, b: Binding, b': Binding)
    requires k.Verify(h, q, b) && k.Verify(h, q, b') && b.keyId == b'.keyId
    ensures b == b'
  {
  }

  /** The binding of a query verifies against exactly the valid queries that hash like it under the active key. */
  lemma BindingVerifiesExactly(h: Hmac, k: Keyring, q: Query, q': Query)
    requires h.Sound() && k.Consistent(h) && q.Valid()
    ensures k.Hash(h, q).Some? && k.activeKeyId in k.keys
    ensures var key := k.keys[k.activeKeyId];
            k.Verify(h, q', k.Hash(h, q).value) <==>
            q'.Valid() && h.queryHash(q', k.activeKeyId, key) == h.queryHash(q, k.activeKeyId, key)
  {
    hide ValidDigest, ValidKeyId, Query.Valid;
  }

  /** Nothing verifies with another version, an unknown or malformed key id, or a malformed hash. */
  lemma ForeignBindingsFail(h: Hmac, k: Keyring, q: Query, b: Binding)
    requires || b.version != "knowledge-query-hmac-sha256-v1" || b.keyId !in k.keys
             || !ValidKeyId(b.keyId) || !ValidDigest(b.hash) || !q.Valid()
    ensures !k.Verify(h, q, b)
  {
    hide ValidDigest, ValidKeyId, Query.Valid;
  }

  // ---------------------------------------------------------------------------------------------
  // Stored rows and their constraints.

  datatype Table = TestCaseVersion | EvaluationRun | RetrievalTrace | LiveToolExecution

  datatype Row = Row(id: nat, queryHash: Option<string>, queryHashKeyId: Option<string>,
      queryHashVersion: Option<string>)

  /** Truth values of SQL. */
  datatype Tri = True | False | Null {
    function And(that: Tri): Tri {
      if this == False || that == False then False
      else if this == Null || that == Null then Null
      else True
    }

    function Or(that: Tri): Tri {
      if this == True || that == True then True
      else if this == Null || that == Null then Null
      else False
    }
  }

  function Truth(b: bool): Tri {
    if b then True else False
  }

  /** A comparison whose operand may be NULL. */
  function Compare(v: Option<string>, p: string -> bool): Tri {
    if v.None? then Null else Truth(p(v.value))
  }

  /** The CHECK expression of a table's query hash metadata constraint. */
  function MetadataCheck(t: Table, r: Row): Tri {
    var absent := Truth(r.queryHashKeyId.None?).And(Truth(r.queryHashVersion.None?));
    var present :=
      Truth(t.EvaluationRun? ==> r.queryHash.Some?)
      .And(Truth(r.queryHashKeyId.Some?))
      .And(Truth(r.queryHashVersion.Some?))
      .And(Compare(r.queryHash, ValidDigest))
      .And(Compare(r.queryHashKeyId, ValidKeyId))
      .And(Compare(r.queryHashVersion, v => v == VERSION));
    absent.Or(present)
  }

  /** PostgreSQL accepts a row unless the CHECK is false: a NULL passes. */
  predicate Accepted(t: Table, r: Row) {
    MetadataCheck(t, r) != False
  }

  /** What the readiness transaction counts as a legacy hash. */
  predicate Legacy(t: Table, r: Row) {
    r.queryHashKeyId.None? && (t.EvaluationRun? ==> r.queryHash.Some?)
  }

  /**
  Which rows the constraint lets in: no metadata at all, or well-formed metadata with a well-formed or
  missing hash.
  */
  lemma AcceptedExactly(t: Table, r: Row)
    ensures Accepted(t, r) <==>
            (r.queryHashKeyId == None && r.queryHashVersion == None)
            || (r.queryHashKeyId.Some? && ValidKeyId(r.queryHashKeyId.value)
                && r.queryHashVersion == Some(VERSION)
                && (r.queryHash.Some? ==> ValidDigest(r.queryHash.value))
                && (t.EvaluationRun? ==> r.queryHash.Some?))
  {
    hide ValidKeyId, ValidDigest;
    assert Compare(r.queryHash, ValidDigest)
        == if r.queryHash.None? then Null else Truth(ValidDigest(r.queryHash.value));
    assert Compare(r.queryHashKeyId, ValidKeyId)
        == if r.queryHashKeyId.None? then Null else Truth(ValidKeyId(r.queryHashKeyId.value));
  }

  /** Without legacy rows every stored hash of every table carries complete, well-formed metadata. */
  lemma NoLegacyMeansComplete(t: Table, r: Row)
    requires Accepted(t, r) && !Legacy(t, r) && r.queryHash.Some?
    ensures && ValidDigest(r.queryHash.value)
            && r.queryHashKeyId.Some? && ValidKeyId(r.queryHashKeyId.value)
            && r.queryHashVersion == Some(VERSION)
  {
    hide *;
    AcceptedExactly(t, r);
    assert r.queryHashKeyId.Some? by { LegacyIs(t, r); }
  }

  lemma LegacyIs(t: Table, r: Row)
    ensures r.queryHash.Some? ==> (Legacy(t, r) <==> r.queryHashKeyId == None)
  {
  }

  /** An evaluation run is legacy when it has a hash and no key id; a row of another table when it has no key id. */
  lemma LegacyExactly(t: Table, r: Row)
    requires Accepted(t, r)
    ensures r.queryHash.Some? ==> (Legacy(t, r) <==> r.queryHashKeyId == None && r.queryHashVersion == None)
    ensures r.queryHash.None? && t.EvaluationRun? ==> !Legacy(t, r) && r.queryHashKeyId == None
    ensures r.queryHash.None? && !t.EvaluationRun? ==> (Legacy(t, r) <==> r.queryHashKeyId == None)
  {
    hide ValidKeyId, ValidDigest, MetadataCheck;
    AcceptedExactly(t, r);
  }

  function StoredRow(id: nat, b: Binding): Row {
    Row(id, Some(b.hash), Some(b.keyId), Some(b.version))
  }

  /** Rows written with a keyring's own bindings pass every table's constraint and are not legacy. */
  lemma WrittenRowAccepted(h: Hmac, k: Keyring, t: Table, id: nat, q: Query)
    requires h.Sound() && k.Consistent(h) && k.Hash(h, q).Some?
    ensures var r := StoredRow(id, k.Hash(h, q).value); MetadataCheck(t, r) == True && !Legacy(t, r)
  {
    hide ValidKeyId, ValidDigest, Query.Valid;
    var r := StoredRow(id, k.Hash(h, q).value);
    assert Compare(r.queryHash, ValidDigest) == True;
    assert Compare(r.queryHashKeyId, ValidKeyId) == True;
  }
}
