/** The embedding configuration handoff (backend/scripts/embed_existing_profiles.py) and its
    counterpart in the importer, which demotes v2 whenever the current set changes. */
module EmbeddingActivation {
  import opened Wrappers
  import opened KbLedger

  datatype Scope = Purpose | Target | Support | Combined

  /** V1 and V2 are rows with the exact target provider, model, dimensions and metric and
      the legacy or the current assembly version; every other row is Other. */
  datatype Assembly = V1 | V2 | Other(name: string)
  datatype Config = Config(assembly: Assembly, isActive: bool)

  type Embeddings = map<(nat, nat, Scope), string>
  type Expected = map<(nat, Scope), string>
  datatype PendingRow = PendingRow(profileVersion: nat, scope: Scope, inputSha: string)

  function Active(configs: seq<Config>): (pks: set<nat>) {
    set pk | 0 <= pk < |configs| && configs[pk].isActive
  }

  function RowsOf(configs: seq<Config>, assembly: Assembly): (pks: set<nat>) {
    set pk | 0 <= pk < |configs| && configs[pk].assembly == assembly
  }

  // ---------------------------------------------------------------- demotion (importer)

  function DemotedRow(row: Config): (demoted: Config) {
    match row.assembly
    case V2 => row.(isActive := false)
    case V1 => row.(isActive := true)
    case Other(_) => row
  }

  function DemotedV2(configs: seq<Config>): (demoted: seq<Config>)
    ensures |demoted| == |configs|
  {
    if RowsOf(configs, V2) * Active(configs) == {} then configs
    else seq(|configs|, i requires 0 <= i < |configs| => DemotedRow(configs[i]))
  }

  // ---------------------------------------------------------------- promotion (embedder)

  /** The checks on the locked configuration rows; yields the only v1 row. */
  function CheckConfigs(configs: seq<Config>, target: nat): (v1: Result<nat>)
    ensures v1.Ok? <==> && RowsOf(configs, V2) == {target}
                        && (exists pk :: RowsOf(configs, V1) == {pk})
                        && Active(configs) <= RowsOf(configs, V1) + RowsOf(configs, V2)
    ensures v1.Ok? ==> RowsOf(configs, V1) == {v1.value}
  {
    var legacy := Where(configs, (row: Config) => row.assembly == V1);
    assert forall pk :: pk in RowsOf(configs, V1) <==> pk in legacy;
    assert |legacy| == 1 ==> RowsOf(configs, V1) == {legacy[0]};
    assert |legacy| > 1 ==>
             legacy[0] in RowsOf(configs, V1) && legacy[1] in RowsOf(configs, V1) && legacy[0] != legacy[1];
    assert |legacy| == 0 ==> RowsOf(configs, V1) == {};
    if RowsOf(configs, V2) != {target} then Err("v2 embedding configuration changed during backfill")
    else if |legacy| != 1 then Err("legacy v1 embedding configuration is missing")
    else if Active(configs) - RowsOf(configs, V1) - RowsOf(configs, V2) != {} then
      Result<nat>.Err("another embedding configuration is active")
    else Ok(legacy[0])
  }

  /** The local pack is exactly the current set, with all four scopes of every profile. */
  predicate CoversExactly(expected: Expected, current: set<nat>) {
    && (set key | key in expected :: key.0) == current
    && expected.Keys
       == (set pk, scope: Scope | pk in current && scope in {Purpose, Target, Support, Combined} :: (pk, scope))
  }

  predicate HashesMatch(embeddings: Embeddings, config: nat, expected: Expected) {
    forall key :: key in expected ==>
      (key.0, config, key.1) in embeddings && embeddings[(key.0, config, key.1)] == expected[key]
  }

  function Promoted(configs: seq<Config>, v1: nat, v2: nat): (promoted: seq<Config>)
    requires v1 < |configs| && v2 < |configs|
    ensures |promoted| == |configs|
  {
    configs[v1 := configs[v1].(isActive := false)][v2 := configs[v2].(isActive := true)]
  }

  function Activate(configs: seq<Config>, embeddings: Embeddings, current: set<nat>, target: nat, expected: Expected)
    : (r: Result<seq<Config>>)
  {
    match CheckConfigs(configs, target)
    case Err(m) => Err(m)
    case Ok(v1) =>
      if !CoversExactly(expected, current) then Err("local profile pack does not match current DB Existing Profiles")
      else if !HashesMatch(embeddings, target, expected) then
        Result<seq<Config>>.Err("incomplete or stale embedding rows")
      else
        assert v1 in RowsOf(configs, V1) && target in RowsOf(configs, V2);
        Ok(Promoted(configs, v1, target))
  }

  /** The one row of an assembly. */
  ghost predicate OnlyRow(configs: seq<Config>, assembly: Assembly, only: nat) {
    only < |configs| && forall pk :: 0 <= pk < |configs| ==> (configs[pk].assembly == assembly <==> pk == only)
  }

  /** What the configuration rows must be: one v1 row, the target the only v2 row, nothing else active. */
  ghost predicate OnlyV1AndTarget(configs: seq<Config>, target: nat) {
    && OnlyRow(configs, V2, target) && (exists v1: nat :: OnlyRow(configs, V1, v1))
    && (forall pk :: 0 <= pk < |configs| && configs[pk].isActive ==> !configs[pk].assembly.Other?)
  }

  lemma OneRowExactly(configs: seq<Config>, assembly: Assembly, only: nat)
    ensures RowsOf(configs, assembly) == {only} <==> OnlyRow(configs, assembly, only)
  {
    if RowsOf(configs, assembly) == {only} {
      assert only in RowsOf(configs, assembly);
      forall pk | 0 <= pk < |configs| ensures configs[pk].assembly == assembly <==> pk == only {
        assert pk in RowsOf(configs, assembly) <==> pk == only;
      }
    }
  }

  lemma ChecksExactly(configs: seq<Config>, target: nat)
    ensures CheckConfigs(configs, target).Ok? <==> OnlyV1AndTarget(configs, target)
  {
    var r := CheckConfigs(configs, target);
    hide CheckConfigs;
    if r.Ok? {
      OneRowExactly(configs, V2, target);
      OneRowExactly(configs, V1, r.value);
      assert forall pk :: 0 <= pk < |configs| && configs[pk].isActive ==> pk in Active(configs);
    }
    if OnlyV1AndTarget(configs, target) {
      OneRowExactly(configs, V2, target);
      var v1: nat :| OnlyRow(configs, V1, v1);
      OneRowExactly(configs, V1, v1);
      assert forall pk :: pk in Active(configs) ==> configs[pk].assembly == V1 || configs[pk].assembly == V2;
    }
  }

  lemma CoversAllScopes(expected: Expected, current: set<nat>)
    ensures CoversExactly(expected, current) <==> forall pk, scope: Scope :: (pk, scope) in expected <==> pk in current
  {
    if CoversExactly(expected, current) {
      forall pk, scope: Scope ensures (pk, scope) in expected <==> pk in current {
        assert scope.Purpose? || scope.Target? || scope.Support? || scope.Combined?;
        assert (pk, scope) in expected.Keys <==> pk in current;
      }
    }
    if forall pk, scope: Scope :: (pk, scope) in expected <==> pk in current {
      var keys := set pk, scope: Scope | pk in current && scope in {Purpose, Target, Support, Combined} :: (pk, scope);
      forall key ensures key in expected.Keys <==> key in keys {
        assert key.1.Purpose? || key.1.Target? || key.1.Support? || key.1.Combined?;
        assert key == (key.0, key.1);
      }
      forall pk ensures pk in (set key | key in expected :: key.0) <==> pk in current {
        assert (pk, Purpose) in expected <==> pk in current;
      }
    }
  }

  /** Promotion succeeds exactly when the rows are right, the local pack covers the current set in
      all four scopes, and every profile's stored row has the expected hash; then v2 alone is active. */
  lemma ActivatesExactly(configs: seq<Config>, embeddings: Embeddings, current: set<nat>, target: nat,
                         expected: Expected)
    ensures Activate(configs, embeddings, current, target, expected).Ok? <==>
              && OnlyV1AndTarget(configs, target)
              && (forall pk, scope: Scope :: (pk, scope) in expected <==> pk in current)
              && (forall pk, scope: Scope :: pk in current && (pk, scope) in expected ==>
                    (pk, target, scope) in embeddings && embeddings[(pk, target, scope)] == expected[(pk, scope)])
    ensures var r := Activate(configs, embeddings, current, target, expected);
            r.Ok? ==> |r.value| == |configs| && forall pk :: 0 <= pk < |configs| ==>
              r.value[pk] == Config(configs[pk].assembly, pk == target)
  {
    ChecksExactly(configs, target);
    CoversAllScopes(expected, current);
    hide CheckConfigs, CoversExactly;
    if CoversExactly(expected, current) {
      forall key | key in expected ensures key.0 in current && key == (key.0, key.1) {
        assert (key.0, key.1) in expected <==> key.0 in current;
      }
    }
    if CheckConfigs(configs, target).Ok? {
      PromotionLeavesOnlyV2(configs, target);
      var after := Promoted(configs, CheckConfigs(configs, target).value, target);
      forall pk | 0 <= pk < |configs| ensures after[pk] == Config(configs[pk].assembly, pk == target) {
        assert after[pk].isActive <==> pk in Active(after);
      }
    }
  }

  function Upserted(embeddings: Embeddings, config: nat, rows: seq<PendingRow>): (after: Embeddings) {
    if rows == [] then embeddings
    else
      var last := rows[|rows| - 1];
      Upserted(embeddings, config, rows[..|rows| - 1])[(last.profileVersion, config, last.scope) := last.inputSha]
  }

  // ---------------------------------------------------------------- what the handoff keeps

  /** Neither handoff touches a configuration other than v1 and v2. */
  ghost predicate OthersKept(configs: seq<Config>, configs': seq<Config>) {
    && |configs'| == |configs|
    && (forall i :: 0 <= i < |configs| ==> configs'[i].assembly == configs[i].assembly)
    && (forall i :: 0 <= i < |configs| && configs[i].assembly.Other? ==> configs'[i] == configs[i])
  }

  /** Demotion leaves no v2 row active, restores v1, and keeps exactly one active
      configuration if and only if the deposed one was not v2 or there is exactly one v1 row
      to fall back on. Without a v1 row retrieval would be left with no configuration. */
  lemma DemotionKeepsOneActive(configs: seq<Config>, active: nat)
    requires Active(configs) == {active}
    ensures OthersKept(configs, DemotedV2(configs))
    ensures RowsOf(DemotedV2(configs), V2) * Active(DemotedV2(configs)) == {}
    ensures (exists pk :: Active(DemotedV2(configs)) == {pk})
            <==> configs[active].assembly != V2 || exists v1 :: RowsOf(configs, V1) == {v1}
    ensures configs[active].assembly == V2 ==> Active(DemotedV2(configs)) == RowsOf(configs, V1)
    ensures configs[active].assembly != V2 ==> DemotedV2(configs) == configs
  {
    assert active in Active(configs);
    if configs[active].assembly == V2 {
      assert active in RowsOf(configs, V2) * Active(configs);
      forall pk | 0 <= pk < |configs|
        ensures pk in Active(DemotedV2(configs)) <==> pk in RowsOf(configs, V1)
      {
        assert configs[pk].isActive <==> pk in Active(configs);
      }
      assert Active(DemotedV2(configs)) == RowsOf(configs, V1);
    } else {
      assert RowsOf(configs, V2) * Active(configs) == {};
    }
  }

  lemma DemotionLeavesNoActiveV2(configs: seq<Config>)
    ensures OthersKept(configs, DemotedV2(configs))
    ensures RowsOf(DemotedV2(configs), V2) * Active(DemotedV2(configs)) == {}
  {
  }

  /** A promotion that passes its checks makes v2 the one and only active configuration. */
  lemma PromotionLeavesOnlyV2(configs: seq<Config>, target: nat)
    requires CheckConfigs(configs, target).Ok?
    ensures var v1 := CheckConfigs(configs, target).value;
            && v1 < |configs| && target < |configs| && v1 != target
            && Active(Promoted(configs, v1, target)) == {target}
            && OthersKept(configs, Promoted(configs, v1, target))
  {
    var v1 := CheckConfigs(configs, target).value;
    assert v1 in RowsOf(configs, V1) && target in RowsOf(configs, V2);
    forall pk | 0 <= pk < |configs| && pk != v1 && pk != target ensures !configs[pk].isActive {
      assert pk in Active(configs) ==> pk in RowsOf(configs, V1) + RowsOf(configs, V2);
    }
  }

  /** An upsert adds or replaces exactly the keys of its rows, the last row of a key winning. */
  lemma {:induction false} UpsertedKeys(embeddings: Embeddings, config: nat, rows: seq<PendingRow>,
                                        key: (nat, nat, Scope))
    ensures key in Upserted(embeddings, config, rows) <==>
              key in embeddings || exists i :: 0 <= i < |rows| && key == (rows[i].profileVersion, config, rows[i].scope)
    ensures key in Upserted(embeddings, config, rows) ==>
              || (key in embeddings && Upserted(embeddings, config, rows)[key] == embeddings[key])
              || exists i :: 0 <= i < |rows| && key == (rows[i].profileVersion, config, rows[i].scope)
                   && Upserted(embeddings, config, rows)[key] == rows[i].inputSha
    ensures forall i :: 0 <= i < |rows| && key == (rows[i].profileVersion, config, rows[i].scope)
              && (forall j :: i < j < |rows| ==> (rows[j].profileVersion, rows[j].scope) != (key.0, key.2))
              ==> Upserted(embeddings, config, rows)[key] == rows[i].inputSha
  {
    if rows != [] {
      UpsertedKeys(embeddings, config, rows[..|rows| - 1], key);
    }
  }

  /** The embedding tables as the scripts' connections see them. */
  class EmbeddingStore {
    var configs: seq<Config>
    var embeddings: Embeddings

    /** _upsert: one committed executemany. */
    method Upsert(config: nat, rows: seq<PendingRow>)
      modifies this`embeddings
      ensures embeddings == Upserted(old(embeddings), config, rows)
    {
      for i := 0 to |rows|
        invariant embeddings == Upserted(old(embeddings), config, rows[..i])
      {
        embeddings := embeddings[(rows[i].profileVersion, config, rows[i].scope) := rows[i].inputSha];
        assert rows[..i + 1][..i] == rows[..i];
      }
      assert rows[..|rows|] == rows;
    }

    /** _activate_v2_after_verified_backfill, with the current set its own SELECT returned. */
    method ActivateAfterVerifiedBackfill(current: set<nat>, target: nat, expected: Expected)
      returns (r: Result<()>)
      modifies this`configs
      ensures match Activate(old(configs), embeddings, current, target, expected)
              case Err(_) => r.Err? && configs == old(configs)
              case Ok(after) => r.Ok? && configs == after
      ensures r.Ok? <==>
                && OnlyRow(old(configs), V2, target) && (exists v1: nat :: OnlyRow(old(configs), V1, v1))
                && (forall pk :: 0 <= pk < |old(configs)| && old(configs)[pk].isActive ==>
                     !old(configs)[pk].assembly.Other?)
                && (forall pk, scope: Scope :: (pk, scope) in expected <==> pk in current)
                && (forall pk, scope: Scope :: pk in current && (pk, scope) in expected ==>
                      (pk, target, scope) in embeddings && embeddings[(pk, target, scope)] == expected[(pk, scope)])
      ensures r.Ok? ==> |configs| == |old(configs)|
                        && forall pk :: 0 <= pk < |configs| ==>
                             configs[pk] == Config(old(configs)[pk].assembly, pk == target)
      ensures r.Err? ==> configs == old(configs)
    {
      hide Where, OnlyRow;
      ActivatesExactly(configs, embeddings, current, target, expected);
      var legacy := CheckConfigs(configs, target);
      if legacy.Err? { return Err(legacy.message); }
      if !CoversExactly(expected, current) { return Err("local profile pack does not match"); }
      if !HashesMatch(embeddings, target, expected) { return Err("incomplete or stale embedding rows"); }
      var v1 := legacy.value;
      assert v1 in RowsOf(configs, V1) && target in RowsOf(configs, V2);
      configs := configs[v1 := configs[v1].(isActive := false)];
      configs := configs[target := configs[target].(isActive := true)];
      r := Ok(());
    }

    /** _demote_v2_after_current_set_change: both updates of its one statement. */
    method DemoteAfterCurrentSetChange()
      modifies this`configs
      ensures configs == DemotedV2(old(configs))
    {
      var before := configs;
      var demoted := RowsOf(before, V2) * Active(before);
      if demoted != {} {
        var deactivated := seq(|before|, i requires 0 <= i < |before| =>
          if i in demoted then before[i].(isActive := false) else before[i]);
        configs := seq(|deactivated|, i requires 0 <= i < |deactivated| =>
          if deactivated[i].assembly == V1 then deactivated[i].(isActive := true) else deactivated[i]);
      }
    }
  }
}
