/** The event indexer: handlers that keep running counters and sums in entity tables, one event at a time. */
module Indexer {
  import opened Wrappers
  import opened Text

  datatype Model = Model(
    creator: string, chunkPrice: nat, chunkCount: nat, totalSize: nat, creatorShareBps: nat, active: bool,
    totalPaidChunks: nat, totalVolume: nat, totalCreatorEarnings: nat, totalSeederEarnings: nat)

  datatype CreatorStat = CreatorStat(
    totalModelsRegistered: nat, activeModelsCount: nat, totalRoyaltiesEarned: nat, totalChunksDelivered: nat)

  datatype SeederStat = SeederStat(totalChunksServed: nat, totalEarnings: nat)

  datatype Overview = Overview(
    totalModelsRegistered: nat, totalActiveModels: nat, totalPaymentsSettled: nat, totalVolume: nat,
    totalUniqueCreators: nat, totalUniqueSeeders: nat, lastIndexedBlock: nat)

  datatype Tables = Tables(
    models: map<string, Model>, creators: map<string, CreatorStat>, seeders: map<string, SeederStat>, overview: Option<Overview>)

  datatype Event =
    | ModelRegistered(modelId: string, creator: string, chunkPrice: nat, chunkCount: nat, creatorShareBps: nat, block: nat)
    | ModelDeactivated(modelId: string, block: nat)
    | PaymentSplit(modelId: string, seeder: string, creator: string, seederAmount: nat, creatorAmount: nat, totalPaid: nat, block: nat)

  const BYTES_PER_CHUNK := 1048576
  const DEFAULT_SHARE_BPS := 7000
  const NO_TABLES := Tables(map[], map[], map[], None)
  const NEW_OVERVIEW := Overview(0, 0, 0, 0, 0, 0, 0)
  const NEW_CREATOR := CreatorStat(0, 0, 0, 0)
  const NEW_SEEDER := SeederStat(0, 0)

  function OverviewOf(t: Tables): Overview {
    if t.overview.Some? then t.overview.value else NEW_OVERVIEW
  }

  // ----- what one event changes, table by table -----

  ghost function FreshModel(e: Event): Model
    requires !e.ModelDeactivated?
  {
    if e.ModelRegistered? then
      Model(ToLower(e.creator), e.chunkPrice, e.chunkCount, e.chunkCount * BYTES_PER_CHUNK, e.creatorShareBps, true, 0, 0, 0, 0)
    else
      Model(ToLower(e.creator), e.totalPaid, 1, BYTES_PER_CHUNK, DEFAULT_SHARE_BPS, true, 0, 0, 0, 0)
  }

  ghost function Paid(m: Model, e: Event): Model
    requires e.PaymentSplit?
  {
    m.(totalPaidChunks := m.totalPaidChunks + 1, totalVolume := m.totalVolume + e.totalPaid,
       totalCreatorEarnings := m.totalCreatorEarnings + e.creatorAmount, totalSeederEarnings := m.totalSeederEarnings + e.seederAmount)
  }

  ghost predicate Deactivates(t: Tables, e: Event) {
    e.ModelDeactivated? && e.modelId in t.models && t.models[e.modelId].active
  }

  ghost function ModelsAfter(t: Tables, e: Event): map<string, Model> {
    match e
    case ModelRegistered(id, _, _, _, _, _) => t.models[id := FreshModel(e)]
    case ModelDeactivated(id, _) => if Deactivates(t, e) then t.models[id := t.models[id].(active := false)] else t.models
    case PaymentSplit(id, _, _, _, _, _, _) =>
      t.models[id := Paid(if id in t.models then t.models[id] else FreshModel(e), e)]
  }

  ghost function CreatorsAfter(t: Tables, e: Event): map<string, CreatorStat> {
    match e
    case ModelRegistered(_, creator, _, _, _, _) =>
      var c := ToLower(creator);
      var stat := if c in t.creators then t.creators[c] else NEW_CREATOR;
      t.creators[c := stat.(totalModelsRegistered := stat.totalModelsRegistered + 1, activeModelsCount := stat.activeModelsCount + 1)]
    case ModelDeactivated(id, _) =>
      if Deactivates(t, e) && t.models[id].creator in t.creators && t.creators[t.models[id].creator].activeModelsCount > 0 then
        var c := t.models[id].creator;
        t.creators[c := t.creators[c].(activeModelsCount := t.creators[c].activeModelsCount - 1)]
      else t.creators
    case PaymentSplit(_, _, creator, _, creatorAmount, _, _) =>
      var c := ToLower(creator);
      if c in t.creators then
        t.creators[c := t.creators[c].(totalRoyaltiesEarned := t.creators[c].totalRoyaltiesEarned + creatorAmount,
                                       totalChunksDelivered := t.creators[c].totalChunksDelivered + 1)]
      else t.creators
  }

  ghost function SeedersAfter(t: Tables, e: Event): map<string, SeederStat> {
    if !e.PaymentSplit? then t.seeders
    else
      var s := ToLower(e.seeder);
      var stat := if s in t.seeders then t.seeders[s] else NEW_SEEDER;
      t.seeders[s := SeederStat(stat.totalChunksServed + 1, stat.totalEarnings + e.seederAmount)]
  }

  ghost function OverviewAfter(t: Tables, e: Event): Option<Overview> {
    var o := OverviewOf(t);
    match e
    case ModelRegistered(_, creator, _, _, _, block) =>
      Some(o.(totalModelsRegistered := o.totalModelsRegistered + 1, totalActiveModels := o.totalActiveModels + 1,
              totalUniqueCreators := o.totalUniqueCreators + (if ToLower(creator) in t.creators then 0 else 1),
              lastIndexedBlock := block))
    case ModelDeactivated(_, block) =>
      if Deactivates(t, e) then
        Some(o.(totalActiveModels := if o.totalActiveModels > 0 then o.totalActiveModels - 1 else 0, lastIndexedBlock := block))
      else t.overview
    case PaymentSplit(_, seeder, _, _, _, totalPaid, block) =>
      Some(o.(totalPaymentsSettled := o.totalPaymentsSettled + 1, totalVolume := o.totalVolume + totalPaid,
              totalUniqueSeeders := o.totalUniqueSeeders + (if ToLower(seeder) in t.seeders then 0 else 1),
              lastIndexedBlock := block))
  }

  ghost function After(t: Tables, e: Event): Tables {
    Tables(ModelsAfter(t, e), CreatorsAfter(t, e), SeedersAfter(t, e), OverviewAfter(t, e))
  }

  // ----- the handlers -----

  class Handlers {
    var models: map<string, Model>
    var creators: map<string, CreatorStat>
    var seeders: map<string, SeederStat>
    var overview: Option<Overview>

    ghost function View(): Tables
      reads this
    {
      Tables(models, creators, seeders, overview)
    }

    constructor ()
      ensures View() == NO_TABLES
    {
      models, creators, seeders, overview := map[], map[], map[], None;
    }

    method GetOrInitNetworkOverview() returns (o: Overview)
      ensures o == OverviewOf(View())
    {
      o := if overview.Some? then overview.value else NEW_OVERVIEW;
    }

    method OnModelRegistered(e: Event)
      requires e.ModelRegistered?
      modifies this
      ensures View() == After(old(View()), e)
    {
      var creator := ToLower(e.creator);
      var model := Model(creator, e.chunkPrice, e.chunkCount, e.chunkCount * BYTES_PER_CHUNK, e.creatorShareBps, true, 0, 0, 0, 0);
      models := models[e.modelId := model];
      var stat := NEW_CREATOR;
      if creator in creators {
        stat := creators[creator];
      } else {
        var network := GetOrInitNetworkOverview();
        overview := Some(network.(totalUniqueCreators := network.totalUniqueCreators + 1));
      }
      stat := stat.(totalModelsRegistered := stat.totalModelsRegistered + 1);
      stat := stat.(activeModelsCount := stat.activeModelsCount + 1);
      creators := creators[creator := stat];
      var network := GetOrInitNetworkOverview();
      network := network.(totalModelsRegistered := network.totalModelsRegistered + 1);
      network := network.(totalActiveModels := network.totalActiveModels + 1, lastIndexedBlock := e.block);
      overview := Some(network);
    }

    method OnModelDeactivated(e: Event)
      requires e.ModelDeactivated?
      modifies this
      ensures View() == After(old(View()), e)
    {
      if e.modelId in models && models[e.modelId].active {
        var model := models[e.modelId].(active := false);
        models := models[e.modelId := model];
        if model.creator in creators && creators[model.creator].activeModelsCount > 0 {
          var stat := creators[model.creator];
          creators := creators[model.creator := stat.(activeModelsCount := stat.activeModelsCount - 1)];
        }
        var network := GetOrInitNetworkOverview();
        if network.totalActiveModels > 0 {
          network := network.(totalActiveModels := network.totalActiveModels - 1);
        }
        overview := Some(network.(lastIndexedBlock := e.block));
      }
    }

    method OnPaymentSplit(e: Event)
      requires e.PaymentSplit?
      modifies this
      ensures View() == After(old(View()), e)
    {
      ghost var t := View();
      UpdateModel(e);
      assert models == ModelsAfter(t, e);
      UpdateCreatorStat(e);
      assert creators == CreatorsAfter(t, e);
      var seeder := ToLower(e.seeder);
      var stat := NEW_SEEDER;
      if seeder in seeders {
        stat := seeders[seeder];
      } else {
        var network := GetOrInitNetworkOverview();
        overview := Some(network.(totalUniqueSeeders := network.totalUniqueSeeders + 1));
      }
      seeders := seeders[seeder := SeederStat(stat.totalChunksServed + 1, stat.totalEarnings + e.seederAmount)];
      assert seeders == SeedersAfter(t, e);
      var network := GetOrInitNetworkOverview();
      network := network.(totalPaymentsSettled := network.totalPaymentsSettled + 1, totalVolume := network.totalVolume + e.totalPaid);
      overview := Some(network.(lastIndexedBlock := e.block));
    }

    /** The model section of a payment: a stand-in is made for a model nobody registered. */
    method UpdateModel(e: Event)
      requires e.PaymentSplit?
      modifies this`models
      ensures models == ModelsAfter(old(View()), e)
    {
      var model := Model(ToLower(e.creator), e.totalPaid, 1, BYTES_PER_CHUNK, DEFAULT_SHARE_BPS, true, 0, 0, 0, 0);
      if e.modelId in models {
        model := models[e.modelId];
      } else {
        models := models[e.modelId := model];
      }
      model := model.(totalPaidChunks := model.totalPaidChunks + 1, totalVolume := model.totalVolume + e.totalPaid);
      model := model.(totalCreatorEarnings := model.totalCreatorEarnings + e.creatorAmount);
      model := model.(totalSeederEarnings := model.totalSeederEarnings + e.seederAmount);
      models := models[e.modelId := model];
    }

    /** The creator section: a creator without a registration has no statistics to update. */
    method UpdateCreatorStat(e: Event)
      requires e.PaymentSplit?
      modifies this`creators
      ensures creators == CreatorsAfter(old(View()), e)
    {
      var creator := ToLower(e.creator);
      if creator in creators {
        var stat := creators[creator];
        creators := creators[creator := stat.(totalRoyaltiesEarned := stat.totalRoyaltiesEarned + e.creatorAmount,
                                              totalChunksDelivered := stat.totalChunksDelivered + 1)];
      }
    }
  }
}
