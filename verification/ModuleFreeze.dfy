/**
 The guard that freezes the structural fields of a content-hashed module version.  It reasons over
 the change history that the ORM keeps per attribute, in which the old value may be missing.
 */
module ModuleFreeze {
  import opened Text

  /** A column value; NULL and None are one value. */
  datatype Value = Null | Val(json: string)

  type Field = string

  const HASH: Field := "content_sha256"

  /** The structural fields other than the hash, which the set below adds. */
  const DESCRIPTIVE_FIELDS: set<Field> := {
    "name", "category", "path", "provider", "description", "git_source", "version",
    "module_source_kind", "execution_engine", "deploy_model", "engine_type",
    "variables_schema", "pack_manifest", "artifact_references", "dependencies", "workflow_compatibility",
    "dependencies_metadata", "inputs_metadata", "outputs_metadata", "deployment_order",
    "is_official", "module_source_id", "source_path", "source_version", "local_path", "is_custom",
    "tarball_sha256", "upstream_source_url", "upstream_subpath", "readme", "tags"
  }

  const IMMUTABLE_FIELDS: set<Field> := DESCRIPTIVE_FIELDS + {HASH}

  type Row = map<Field, Value>

  function Get(row: Row, f: Field): Value {
    if f in row then row[f] else Null
  }

  /** `added` and `deleted` of one attribute's history: lists of at most one element. */
  datatype History = History(added: Option<Value>, deleted: Option<Value>)

  type Update = map<Field, History>

  function HistoryOf(u: Update, f: Field): History {
    if f in u then u[f] else History(None, None)
  }

  predicate HasChanges(h: History) {
    h.added.Some? || h.deleted.Some?
  }

  function OrNull(v: Option<Value>): Value {
    if v.Some? then v.value else Null
  }

  /** The row after the UPDATE; an attribute deleted without a new value is written as NULL. */
  function Apply(row: Row, u: Update): Row {
    map f | f in row.Keys + u.Keys :: if HasChanges(HistoryOf(u, f)) then OrNull(u[f].added) else Get(row, f)
  }

  /** An old value in the history, when there is one, is the persisted value. */
  ghost predicate IsTruthful(row: Row, u: Update) {
    forall f :: HistoryOf(u, f).deleted.Some? ==> HistoryOf(u, f).deleted.value == Get(row, f)
  }

  /** The attribute was assigned although its old value never entered the history. */
  predicate IsBlind(u: Update, f: Field) {
    HasChanges(HistoryOf(u, f)) && HistoryOf(u, f).deleted.None?
  }

  predicate IsBlindNull(u: Update, f: Field) {
    IsBlind(u, f) && HistoryOf(u, f).added == Some(Null)
  }

  /** The structural fields whose persisted value the update would really change. */
  function Drift(row: Row, u: Update): set<Field> {
    set f | f in IMMUTABLE_FIELDS && Get(Apply(row, u), f) != Get(row, f)
  }

  // ---------------------------------------------------------------------------------------
  // The guard
  // ---------------------------------------------------------------------------------------

  /** What the guard takes for the hash the row carried when the update began. */
  function SeenHash(row: Row, u: Update): Value {
    if HasChanges(HistoryOf(u, HASH)) then OrNull(HistoryOf(u, HASH).deleted) else Get(row, HASH)
  }

  /** The field ends up in the list of violations. */
  predicate IsReported(row: Row, u: Update, f: Field) {
    var h := HistoryOf(u, f);
    && HasChanges(h)
    && OrNull(h.added) != OrNull(h.deleted)
    && (h.deleted.None? ==> Get(row, f) != OrNull(h.added))
  }

  predicate Accepts(row: Row, u: Update) {
    SeenHash(row, u) == Null || forall f :: f in IMMUTABLE_FIELDS ==> !IsReported(row, u, f)
  }

  /** One row of the table and the changes the session has collected for it. */
  class ModuleVersion {
    var persisted: Row
    var pending: Update

    constructor (row: Row)
      ensures persisted == row && pending == map[]
    {
      persisted, pending := row, map[];
    }

    /** The `before_update` listener; a non-empty result is the ValueError. */
    method EnforceStructuralImmutability() returns (changed: set<Field>)
      ensures changed == {} <==> Accepts(persisted, pending)
      ensures SeenHash(persisted, pending) != Null ==>
                changed == set f | f in IMMUTABLE_FIELDS && IsReported(persisted, pending, f)
    {
      changed := {};
      var hashHistory := HistoryOf(pending, HASH);
      var persistedHash := if HasChanges(hashHistory) then OrNull(hashHistory.deleted) else Get(persisted, HASH);
      if persistedHash == Null {
        return;
      }
      var todo := IMMUTABLE_FIELDS;
      while todo != {}
        invariant todo <= IMMUTABLE_FIELDS
        invariant changed == set f | f in IMMUTABLE_FIELDS - todo && IsReported(persisted, pending, f)
        decreases |todo|
      {
        var field :| field in todo;
        todo := todo - {field};
        var reported := CheckField(field);
        if reported {
          changed := changed + {field};
        }
      }
      assert forall f :: f in changed <==> f in IMMUTABLE_FIELDS && IsReported(persisted, pending, f);
    }

    /** Whether one field counts as changed; a field without changes, or with equal values, does not. */
    method CheckField(field: Field) returns (reported: bool)
      ensures reported == IsReported(persisted, pending, field)
    {
      var history := HistoryOf(pending, field);
      if !HasChanges(history) {
        return false;
      }
      var added, deleted := OrNull(history.added), OrNull(history.deleted);
      if added == deleted {
        return false;
      }
      if history.deleted.None? {
        var stored := Get(persisted, field);
        if stored == added {
          return false;
        }
      }
      return true;
    }

    /** A flush: the pending changes reach the row, or the guard refuses and the row stays. */
    method Flush() returns (accepted: bool)
      modifies this
      ensures accepted == Accepts(old(persisted), old(pending))
      ensures persisted == Step(old(persisted), old(pending)) && pending == map[]
    {
      var changed := EnforceStructuralImmutability();
      accepted := changed == {};
      if accepted {
        persisted := Apply(persisted, pending);
      }
      pending := map[];
    }
  }

  function Step(row: Row, u: Update): Row {
    if Accepts(row, u) then Apply(row, u) else row
  }

  // ---------------------------------------------------------------------------------------
  // What one update can do
  // ---------------------------------------------------------------------------------------

  /** The listener reports a drifting field unless NULL was written over a missing old value, and nothing else. */
  lemma ReportedIff(row: Row, u: Update, f: Field)
    requires IsTruthful(row, u) && f in IMMUTABLE_FIELDS
    ensures IsReported(row, u, f) <==> f in Drift(row, u) && !(IsBlind(u, f) && OrNull(HistoryOf(u, f).added) == Null)
  {
    var h := HistoryOf(u, f);
    assert h.deleted.Some? ==> h.deleted.value == Get(row, f);
    assert Get(Apply(row, u), f) == if HasChanges(h) then OrNull(h.added) else Get(row, f);
  }

  /**
   Exactly which updates of a hashed row pass: those whose hash assignment hides the old hash, and
   those in which every structural field that really changes is set to NULL over a missing old value.
   */
  lemma AcceptedIff(row: Row, u: Update)
    requires IsTruthful(row, u) && Get(row, HASH) != Null
    ensures Accepts(row, u) <==> IsBlind(u, HASH) || forall f :: f in Drift(row, u) ==> IsBlindNull(u, f)
  {
    forall f | f in IMMUTABLE_FIELDS
      ensures IsReported(row, u, f) <==> f in Drift(row, u) && !IsBlindNull(u, f)
    {
      ReportedIff(row, u, f);
    }
    assert HistoryOf(u, HASH).deleted.Some? ==> HistoryOf(u, HASH).deleted.value == Get(row, HASH);
  }

  /** A row without a hash accepts every update, so it can be given its hash together with new content. */
  lemma LegacyRowAcceptsAll(row: Row, u: Update)
    requires IsTruthful(row, u) && Get(row, HASH) == Null
    ensures Accepts(row, u) && Step(row, u) == Apply(row, u)
  {
    assert HistoryOf(u, HASH).deleted.Some? ==> HistoryOf(u, HASH).deleted.value == Get(row, HASH);
  }

  /** The hash was loaded before it was assigned, and no NULL goes over a missing old value. */
  ghost predicate IsCareful(u: Update) {
    !IsBlind(u, HASH) && forall f :: f in IMMUTABLE_FIELDS ==> !IsBlindNull(u, f)
  }

  ghost predicate SameStructure(a: Row, b: Row) {
    forall f :: f in IMMUTABLE_FIELDS ==> Get(a, f) == Get(b, f)
  }

  /**
   The guard of the failing branch: an update of a hashed row changes structure and still passes,
   because it assigns the hash unloaded or changes nothing but to NULL over missing old values.
   */
  ghost predicate Thaws(row: Row, u: Update) {
    && Get(row, HASH) != Null && Drift(row, u) != {}
    && (IsBlind(u, HASH) || forall f :: f in Drift(row, u) ==> IsBlindNull(u, f))
  }

  lemma DriftIffDifferent(row: Row, u: Update)
    ensures SameStructure(Apply(row, u), row) <==> Drift(row, u) == {}
  {
    forall f | f in IMMUTABLE_FIELDS
      ensures f in Drift(row, u) <==> Get(Apply(row, u), f) != Get(row, f)
    {
    }
  }

  /** An update of a hashed row keeps the structure exactly when it does not thaw the row. */
  lemma KeepsStructureIff(row: Row, u: Update)
    requires IsTruthful(row, u) && Get(row, HASH) != Null
    ensures SameStructure(Step(row, u), row) <==> !Thaws(row, u)
  {
    AcceptedIff(row, u);
    DriftIffDifferent(row, u);
  }

  /** A careful update never thaws a row, and is accepted exactly when it changes no structural value. */
  lemma CarefulStepKeepsStructure(row: Row, u: Update)
    requires IsTruthful(row, u) && IsCareful(u) && Get(row, HASH) != Null
    ensures !Thaws(row, u) && SameStructure(Step(row, u), row)
    ensures Accepts(row, u) <==> SameStructure(Apply(row, u), row)
  {
    AcceptedIff(row, u);
    DriftIffDifferent(row, u);
    if Drift(row, u) != {} {
      var f :| f in Drift(row, u);
      assert !IsBlindNull(u, f);
    }
    KeepsStructureIff(row, u);
  }

  /** What an accepted update leaves: assigned values where it assigned, the old ones elsewhere. */
  lemma AcceptedUpdateIsApplied(row: Row, u: Update, f: Field)
    requires Accepts(row, u)
    ensures f in u && u[f].added.Some? ==> Get(Step(row, u), f) == u[f].added.value
    ensures f in u && u[f].added.None? && u[f].deleted.Some? ==> Get(Step(row, u), f) == Null
    ensures f !in u || u[f] == History(None, None) ==> Get(Step(row, u), f) == Get(row, f)
  {
  }

  /** An ordinary assignment to one column: the old value was loaded. */
  function Assign(row: Row, f: Field, v: Value): Update {
    map[f := History(Some(v), Some(Get(row, f)))]
  }

  /** Assigning another value to a column of a hashed row is refused exactly when the column is structural. */
  lemma AssignmentIsRefusedIff(row: Row, f: Field, v: Value)
    requires Get(row, HASH) != Null && v != Get(row, f)
    ensures !Accepts(row, Assign(row, f, v)) <==> f in IMMUTABLE_FIELDS
  {
    var u := Assign(row, f, v);
    assert IsReported(row, u, f);
    assert forall g :: g != f ==> !IsReported(row, u, g);
    assert SeenHash(row, u) != Null;
  }

  /** The frozen columns: identity and origin, how the module is run, what it declares, and its hash. */
  lemma StructuralColumnsAreFrozen(f: Field)
    ensures f in {"name", "category", "path", "provider", "description", "git_source", "version", "readme", "tags"} ==> f in IMMUTABLE_FIELDS
    ensures f in {"module_source_kind", "execution_engine", "deploy_model", "engine_type", "deployment_order", "is_official", "is_custom"} ==>
              f in IMMUTABLE_FIELDS
    ensures f in {"variables_schema", "pack_manifest", "artifact_references", "dependencies", "workflow_compatibility"} ==> f in IMMUTABLE_FIELDS
    ensures f in {"dependencies_metadata", "inputs_metadata", "outputs_metadata"} ==> f in IMMUTABLE_FIELDS
    ensures f in {"module_source_id", "source_path", "source_version", "local_path"} ==> f in IMMUTABLE_FIELDS
    ensures f in {"tarball_sha256", "upstream_source_url", "upstream_subpath", "content_sha256"} ==> f in IMMUTABLE_FIELDS
  {
  }

  /** Lifecycle, health and annotation columns stay open. */
  lemma LifecycleColumnsStayOpen(f: Field)
    requires f in {"is_active", "is_latest", "latest_version", "update_available", "is_tested", "test_last_run", "test_error"}
          || f in {"metadata_overrides", "validation_error", "last_synced", "created_at", "updated_at"}
          || f in {"last_smoke_test_status", "last_smoke_test_output", "last_smoke_test_at"}
    ensures f !in IMMUTABLE_FIELDS
  {
  }

  // ---------------------------------------------------------------------------------------
  // Runs
  // ---------------------------------------------------------------------------------------

  function Run(row: Row, us: seq<Update>): Row
    decreases |us|
  {
    if us == [] then row else Run(Step(row, us[0]), us[1..])
  }

  /** Each update's history is truthful about the row it meets. */
  ghost predicate IsRun(row: Row, us: seq<Update>)
    decreases |us|
  {
    us == [] || (IsTruthful(row, us[0]) && IsRun(Step(row, us[0]), us[1..]))
  }

  ghost predicate ThawsNothing(row: Row, us: seq<Update>)
    decreases |us|
  {
    us == [] || (!Thaws(row, us[0]) && ThawsNothing(Step(row, us[0]), us[1..]))
  }

  /** After every update of the run the structure is what it was at the start. */
  ghost predicate StaysFrozen(row: Row, us: seq<Update>) {
    forall k :: 0 <= k <= |us| ==> SameStructure(Run(row, us[..k]), row)
  }

  lemma StaysFrozenStep(row: Row, us: seq<Update>)
    requires us != []
    ensures StaysFrozen(row, us) <==> SameStructure(Step(row, us[0]), row) && StaysFrozen(Step(row, us[0]), us[1..])
  {
    var next, rest := Step(row, us[0]), us[1..];
    forall k | 0 < k <= |us|
      ensures Run(row, us[..k]) == Run(next, rest[..k - 1])
    {
      RunPrefix(row, us, k);
    }
    assert us[..0] == [] && rest[..0] == [] && Run(next, rest[..0]) == next;
    if StaysFrozen(row, us) {
      assert SameStructure(Run(row, us[..1]), row);
      forall k | 0 <= k <= |rest|
        ensures SameStructure(Run(next, rest[..k]), next)
      {
        assert SameStructure(Run(row, us[..k + 1]), row);
      }
    }
    if SameStructure(next, row) && StaysFrozen(next, rest) {
      forall k | 0 <= k <= |us|
        ensures SameStructure(Run(row, us[..k]), row)
      {
        if k > 0 {
          assert SameStructure(Run(next, rest[..k - 1]), next);
        }
      }
    }
  }

  /** Over every run from a hashed row, structure and hash stay what they were exactly when no update thaws the row. */
  lemma {:induction false} StaysFrozenIff(row: Row, us: seq<Update>)
    requires Get(row, HASH) != Null && IsRun(row, us)
    ensures StaysFrozen(row, us) <==> ThawsNothing(row, us)
    decreases |us|
  {
    if us == [] {
      assert us[..0] == [];
    } else {
      KeepsStructureIff(row, us[0]);
      StaysFrozenStep(row, us);
      if !Thaws(row, us[0]) {
        assert HASH in IMMUTABLE_FIELDS;
        StaysFrozenIff(Step(row, us[0]), us[1..]);
      }
    }
  }

  /** Freezing is irrevocable: once hashed, no run without a thaw changes a structural field, the hash included. */
  lemma FrozenForever(row: Row, us: seq<Update>)
    requires Get(row, HASH) != Null && IsRun(row, us) && ThawsNothing(row, us)
    ensures SameStructure(Run(row, us), row)
  {
    StaysFrozenIff(row, us);
    assert us[..|us|] == us;
  }

  /** Runs of careful updates thaw nothing. */
  lemma {:induction false} CarefulRunsThawNothing(row: Row, us: seq<Update>)
    requires IsRun(row, us) && forall u :: u in us ==> IsCareful(u)
    ensures ThawsNothing(row, us)
    decreases |us|
  {
    if us != [] {
      if Get(row, HASH) != Null {
        CarefulStepKeepsStructure(row, us[0]);
      }
      CarefulRunsThawNothing(Step(row, us[0]), us[1..]);
    }
  }

  lemma RunPrefix(row: Row, us: seq<Update>, j: nat)
    requires 0 < j <= |us|
    ensures Run(row, us[..j]) == Run(Step(row, us[0]), us[1..][..j - 1])
  {
    assert us[..j][1..] == us[1..][..j - 1] && us[..j][0] == us[0];
  }

  /** From a row without a hash, a run changes structure only until the first update that leaves a hash behind. */
  lemma {:induction false} FrozenAtFirstHash(row: Row, us: seq<Update>) returns (k: nat)
    requires IsRun(row, us) && ThawsNothing(row, us)
    ensures k <= |us| && SameStructure(Run(row, us), Run(row, us[..k]))
    ensures forall j :: 0 <= j < k ==> Get(Run(row, us[..j]), HASH) == Null
    ensures k < |us| ==> Get(Run(row, us[..k]), HASH) != Null
    decreases |us|
  {
    assert us[..0] == [] && Run(row, us[..0]) == row;
    if us == [] {
      k := 0;
    } else if Get(row, HASH) != Null {
      FrozenForever(row, us);
      k := 0;
    } else {
      var next, rest := Step(row, us[0]), us[1..];
      var m := FrozenAtFirstHash(next, rest);
      k := m + 1;
      forall j | 0 < j <= k
        ensures Run(row, us[..j]) == Run(next, rest[..j - 1])
      {
        RunPrefix(row, us, j);
      }
    }
  }

  // ---------------------------------------------------------------------------------------
  // Updates that thaw a row
  // ---------------------------------------------------------------------------------------

  /** Assigning the hash without having loaded it unfreezes the row in that very update. */
  lemma BlindHashUnfreezes(oldHash: string, newHash: string, oldName: string, newName: string)
    requires oldName != newName
    ensures var row: Row := map[HASH := Val(oldHash), "name" := Val(oldName)];
            var u: Update := map[HASH := History(Some(Val(newHash)), None),
                                 "name" := History(Some(Val(newName)), Some(Val(oldName)))];
            IsTruthful(row, u) && Accepts(row, u) && !SameStructure(Step(row, u), row)
  {
    var row: Row := map[HASH := Val(oldHash), "name" := Val(oldName)];
    var u: Update := map[HASH := History(Some(Val(newHash)), None),
                         "name" := History(Some(Val(newName)), Some(Val(oldName)))];
    assert HASH[0] != "name"[0];
    assert "name" in IMMUTABLE_FIELDS;
    assert Get(Step(row, u), "name") == Val(newName);
  }

  /** Setting a field to NULL without having loaded it erases it, hash or no hash. */
  lemma BlindNullErases(hash: string, oldName: string)
    ensures var row: Row := map[HASH := Val(hash), "name" := Val(oldName)];
            var u: Update := map["name" := History(Some(Null), None)];
            IsTruthful(row, u) && Accepts(row, u) && !SameStructure(Step(row, u), row)
  {
    var row: Row := map[HASH := Val(hash), "name" := Val(oldName)];
    var u: Update := map["name" := History(Some(Null), None)];
    assert HASH[0] != "name"[0];
    assert "name" in IMMUTABLE_FIELDS;
    assert Get(Step(row, u), "name") == Null;
  }
}
