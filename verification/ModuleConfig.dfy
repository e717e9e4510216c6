/** The stage table a module process is configured with (server-go/bus/module_runtime.go). */
module ModuleConfig {
  import opened Words

  datatype Stage = Stage(eventKind: u32, stageId: u32)

  datatype ProcessConfig = ProcessConfig(socketPath: string, moduleName: string, principalClass: u32, principalRef: u32,
                                         stages: seq<Stage>)

  datatype StageTable = Refused | Table(stages: map<u32, u32>)

  /** Every kind and stage is named, and no kind twice. */
  ghost predicate Dispatchable(stages: seq<Stage>) {
    && (forall i :: 0 <= i < |stages| ==> stages[i].eventKind != 0 && stages[i].stageId != 0)
    && (forall i, j :: 0 <= i < j < |stages| ==> stages[i].eventKind != stages[j].eventKind)
  }

  /** Every entry of the table is a configured stage. */
  ghost predicate Sound(table: map<u32, u32>, stages: seq<Stage>) {
    forall k :: k in table ==> Stage(k, table[k]) in stages
  }

  /** Every configured stage is in the table. */
  ghost predicate Complete(table: map<u32, u32>, stages: seq<Stage>) {
    forall i :: 0 <= i < |stages| ==> stages[i].eventKind in table && table[stages[i].eventKind] == stages[i].stageId
  }

  /** The table answers exactly the kinds listed, each with its own stage. */
  ghost predicate TableOf(table: map<u32, u32>, stages: seq<Stage>) {
    |table| == |stages| && Sound(table, stages) && Complete(table, stages)
  }

  method ValidateModuleConfig(config: ProcessConfig) returns (r: StageTable)
    ensures r.Table? <==> config.socketPath != "" && config.moduleName != "" && config.principalClass != 0
                          && config.principalRef != 0 && config.stages != []
                          && (forall s :: s in config.stages ==> s.eventKind != 0 && s.stageId != 0)
                          && (forall i, j :: 0 <= i < j < |config.stages| ==>
                                config.stages[i].eventKind != config.stages[j].eventKind)
    ensures r.Table? ==>
              && |r.stages| == |config.stages|
              && (forall s :: s in config.stages ==> s.eventKind in r.stages && r.stages[s.eventKind] == s.stageId)
              && (forall k :: k in r.stages ==> exists s :: s in config.stages && s.eventKind == k)
  {
    hide Dispatchable, TableOf;
    InFields(config.stages);
    if config.socketPath == "" || config.moduleName == "" || config.principalClass == 0
       || config.principalRef == 0 || |config.stages| == 0 {
      return Refused;
    }
    r := ReadStages(config.stages);
  }

  /** Its loop over the stages. */
  method ReadStages(stages: seq<Stage>) returns (r: StageTable)
    ensures r.Table? <==> Dispatchable(stages)
    ensures r.Table? ==> TableOf(r.stages, stages)
  {
    hide Dispatchable, TableOf;
    var table: map<u32, u32> := map[];
    StartsEmpty(table);
    for i := 0 to |stages|
      invariant Dispatchable(stages[..i]) && TableOf(table, stages[..i])
    {
      var stage := stages[i];
      assert stages[..i + 1] == stages[..i] + [stage];
      Next(table, stages, i);
      if stage.eventKind == 0 || stage.stageId == 0 { return Refused; }
      if stage.eventKind in table { return Refused; }
      table := table[stage.eventKind := stage.stageId];
    }
    assert stages[..|stages|] == stages;
    r := Table(table);
  }

  /** The predicates above, said of the stages themselves. */
  lemma InFields(stages: seq<Stage>)
    ensures Dispatchable(stages) <==>
            && (forall s :: s in stages ==> s.eventKind != 0 && s.stageId != 0)
            && (forall i, j :: 0 <= i < j < |stages| ==> stages[i].eventKind != stages[j].eventKind)
    ensures forall table {:trigger TableOf(table, stages)} :: TableOf(table, stages) ==>
              && |table| == |stages|
              && (forall s :: s in stages ==> s.eventKind in table && table[s.eventKind] == s.stageId)
              && (forall k :: k in table ==> exists s :: s in stages && s.eventKind == k)
  {
    assert forall i :: 0 <= i < |stages| ==> stages[i] in stages;
    forall table | TableOf(table, stages)
      ensures |table| == |stages|
      ensures forall s :: s in stages ==> s.eventKind in table && table[s.eventKind] == s.stageId
      ensures forall k :: k in table ==> exists s :: s in stages && s.eventKind == k
    {
      forall k | k in table ensures exists s :: s in stages && s.eventKind == k {
        assert Stage(k, table[k]) in stages;
      }
    }
  }

  lemma StartsEmpty(table: map<u32, u32>)
    requires table == map[]
    ensures Dispatchable([]) && TableOf(table, [])
  {}

  /** One more stage: it either spoils the configuration for good or extends the table. */
  lemma Next(table: map<u32, u32>, stages: seq<Stage>, i: nat)
    requires i < |stages| && Dispatchable(stages[..i]) && TableOf(table, stages[..i])
    ensures var stage := stages[i];
      if stage.eventKind == 0 || stage.stageId == 0 || stage.eventKind in table then !Dispatchable(stages)
      else
        Dispatchable(stages[..i] + [stage])
        && TableOf(table[stage.eventKind := stage.stageId], stages[..i] + [stage])
  {
    var stage, before := stages[i], stages[..i];
    if stage.eventKind in table {
      var j :| 0 <= j < |before| && before[j] == Stage(stage.eventKind, table[stage.eventKind]);
      assert stages[j] == before[j];
    } else {
      CountGrows(table, stage);
      SoundGrows(table, before, stage);
      CompleteGrows(table, before, stage);
    }
  }

  lemma CountGrows(table: map<u32, u32>, stage: Stage)
    requires stage.eventKind !in table
    ensures |table[stage.eventKind := stage.stageId]| == |table| + 1
  {
    var table' := table[stage.eventKind := stage.stageId];
    assert table'.Keys == table.Keys + {stage.eventKind};
    assert |table'| == |table'.Keys| && |table| == |table.Keys|;
  }

  lemma SoundGrows(table: map<u32, u32>, stages: seq<Stage>, stage: Stage)
    requires Sound(table, stages)
    ensures Sound(table[stage.eventKind := stage.stageId], stages + [stage])
  {
    var table', stages' := table[stage.eventKind := stage.stageId], stages + [stage];
    forall k | k in table' ensures Stage(k, table'[k]) in stages' {
      if k == stage.eventKind { assert stages'[|stages|] == stage; }
    }
  }

  lemma CompleteGrows(table: map<u32, u32>, stages: seq<Stage>, stage: Stage)
    requires Complete(table, stages) && stage.eventKind !in table
    ensures Complete(table[stage.eventKind := stage.stageId], stages + [stage])
  {}

  /** In a validated table the stage of a kind is never 0, the value that stands for an unknown kind. */
  lemma StagesAreNamed(table: map<u32, u32>, stages: seq<Stage>, kind: u32)
    requires Dispatchable(stages) && TableOf(table, stages)
    ensures (if kind in table then table[kind] else 0) != 0 <==>
            exists i :: 0 <= i < |stages| && stages[i].eventKind == kind
  {
    if kind in table {
      var i :| 0 <= i < |stages| && stages[i] == Stage(kind, table[kind]);
    }
  }
}
