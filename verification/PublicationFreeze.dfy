/** The trigger that freezes a knowledge publication once it has been validated. */
module PublicationFreeze {
  import opened Wrappers

  datatype Status = Validating | Ready | Publishing | Active | Superseded | Failed | RolledBack

  /** The columns that the trigger compares; NULL is None. */
  datatype Manifest = Manifest(
    id: Option<string>,
    tenantId: Option<string>,
    targetKey: Option<string>,
    corpusKind: Option<string>,
    sequence: Option<int>,
    indexSnapshotId: Option<string>,
    basePublicationId: Option<string>,
    manifestHash: Option<string>,
    pipelineVersion: Option<string>,
    retrievalPolicyVersion: Option<string>,
    promptPolicyVersion: Option<string>,
    qualitySummary: Option<string>,
    createdAt: Option<int>)

  datatype Publication = Publication(manifest: Manifest, status: Status, otherColumns: map<string, Option<string>>)

  predicate Frozen(p: Publication) {
    p.status in {Ready, Publishing, Active, Superseded, Failed, RolledBack}
  }

  datatype Refusal = CannotBeDeleted | ManifestIsImmutable | CannotReturnToValidation

  /** What the trigger returns for a delete at the given trigger depth. */
  function OnDelete(old': Publication, depth: nat): Result<Publication, Refusal> {
    if Frozen(old') && depth <= 1 then Err(CannotBeDeleted) else Ok(old')
  }

  /** What it returns for an update. IS DISTINCT FROM treats two NULLs as equal, as equality on None does. */
  function OnUpdate(old': Publication, new': Publication): Result<Publication, Refusal> {
    if Frozen(old') then
      if old'.manifest != new'.manifest then Err(ManifestIsImmutable)
      else if new'.status == Validating then Err(CannotReturnToValidation)
      else Ok(new')
    else Ok(new')
  }

  // ---------------------------------------------------------------------------------------------
  // Runs. Rows are addressed by what identifies them physically, since an update may change any column.

  type Table = map<nat, Publication>

  /**
  An update is accepted, as it is, exactly when the row is still being validated, or keeps its manifest
  and stays out of validation.
  */
  lemma UpdateExactly(old': Publication, new': Publication)
    ensures OnUpdate(old', new').Ok? <==>
            old'.status == Validating || (new'.manifest == old'.manifest && new'.status != Validating)
    ensures OnUpdate(old', new').Ok? ==> OnUpdate(old', new').value == new'
    ensures OnUpdate(old', new') == Err(ManifestIsImmutable) <==>
            old'.status != Validating && new'.manifest != old'.manifest
    ensures OnUpdate(old', new') != Err(CannotBeDeleted)
  {
  }

  /** A delete is accepted exactly when the row is still being validated, or comes from within another trigger. */
  lemma DeleteExactly(old': Publication, depth: nat)
    ensures OnDelete(old', depth) == if old'.status == Validating || depth > 1 then Ok(old') else Err(CannotBeDeleted)
  {
  }

  datatype Change =
    | Insert(row: nat, publication: Publication)
    | Update(row: nat, publication: Publication)
    | Delete(row: nat, depth: nat)

  function Apply(t: Table, c: Change): Table {
    match c
    case Insert(row, p) => if row in t then t else t[row := p]
    case Update(row, p) => if row in t && OnUpdate(t[row], p).Ok? then t[row := OnUpdate(t[row], p).value] else t
    case Delete(row, depth) => if row in t && OnDelete(t[row], depth).Ok? then t - {row} else t
  }

  function ApplyAll(t: Table, changes: seq<Change>): Table
    decreases |changes|
  {
    if changes == [] then t else ApplyAll(Apply(t, changes[0]), changes[1..])
  }

  /** A delete issued from within another trigger, as a cascade is. */
  predicate Cascades(c: Change, row: nat) {
    c.Delete? && c.row == row && c.depth > 1
  }

  /**
  Over any changes, accepted or refused, a frozen publication keeps its thirteen manifest columns and
  never returns to validation, and only a cascade can remove it.
  */
  lemma {:induction false} FrozenForever(t: Table, changes: seq<Change>, row: nat)
    requires row in t && Frozen(t[row])
    requires forall i :: 0 <= i < |changes| ==> !Cascades(changes[i], row)
    ensures var t' := ApplyAll(t, changes);
            row in t' && Frozen(t'[row]) && t'[row].status != Validating && t'[row].manifest == t[row].manifest
    decreases |changes|
  {
    if changes != [] {
      OneChange(t, changes[0], row);
      hide Apply;
      FrozenForever(Apply(t, changes[0]), changes[1..], row);
    }
  }

  lemma OneChange(t: Table, c: Change, row: nat)
    requires row in t && Frozen(t[row]) && !Cascades(c, row)
    ensures var t' := Apply(t, c); row in t' && Frozen(t'[row]) && t'[row].manifest == t[row].manifest
  {
    hide Frozen;
    var t' := Apply(t, c);
    if row in t' {
      FrozenExactly(t'[row]);
    }
  }

  /** The only status that is not frozen is the one before validation. */
  lemma FrozenExactly(p: Publication)
    ensures Frozen(p) <==> p.status != Validating
  {
    match p.status
    case Validating =>
    case _ =>
  }

  /**
  A frozen publication that is gone, or has another manifest or is being validated, was removed by a
  cascade in between.
  */
  lemma OnlyCascadesRemove(t: Table, changes: seq<Change>, row: nat)
    requires row in t && Frozen(t[row])
    requires var t' := ApplyAll(t, changes);
             row !in t' || t'[row].manifest != t[row].manifest || t'[row].status == Validating
    ensures exists i :: 0 <= i < |changes| && Cascades(changes[i], row)
  {
    if forall i :: 0 <= i < |changes| ==> !Cascades(changes[i], row) {
      FrozenForever(t, changes, row);
    }
  }
}
