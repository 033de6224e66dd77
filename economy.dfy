/**
 * The four economic lookup tables of the business page: base consumption and
 * base price per building id, bonus multiplier and bonus price per NPC id.
 * Five ids are known in each table; any other id falls back to a default.
 */
module Economy {

  const KnownBuildings: seq<string> := ["building-1", "building-2", "building-3", "building-4", "building-5"]
  const KnownNpcs: seq<string> := ["npc-1", "npc-2", "npc-3", "npc-4", "npc-5"]

  function BuildingBaseConsumption(buildingId: string): (consumption: int)
    ensures buildingId !in KnownBuildings ==> consumption == 5
    ensures 5 <= consumption <= 15
  {
    match buildingId
    case "building-1" => 8
    case "building-2" => 15
    case "building-3" => 12
    case "building-4" => 10
    case "building-5" => 6
    case _ => 5
  }

  function BuildingBasePrice(buildingId: string): (price: int)
    ensures buildingId !in KnownBuildings ==> price == 10
    ensures 10 <= price <= 20
  {
    match buildingId
    case "building-1" => 12
    case "building-2" => 20
    case "building-3" => 18
    case "building-4" => 15
    case "building-5" => 10
    case _ => 10
  }

  function NpcBonusMultiplier(npcId: string): (multiplier: real)
    ensures npcId !in KnownNpcs ==> multiplier == 0.2
    ensures 0.2 <= multiplier <= 0.5
  {
    match npcId
    case "npc-1" => 0.2
    case "npc-2" => 0.3
    case "npc-3" => 0.5
    case "npc-4" => 0.25
    case "npc-5" => 0.4
    case _ => 0.2
  }

  function NpcBonusPrice(npcId: string): (price: int)
    ensures npcId !in KnownNpcs ==> price == 2
    ensures 2 <= price <= 6
  {
    match npcId
    case "npc-1" => 2
    case "npc-2" => 4
    case "npc-3" => 6
    case "npc-4" => 3
    case "npc-5" => 5
    case _ => 2
  }

  /** Each known id has its own entry in every table: for buildings, the values
      of building-1 .. building-5 in order; for NPCs, those of npc-1 .. npc-5. */
  lemma KnownEntries()
    ensures forall k :: 0 <= k < 5 ==>
      BuildingBaseConsumption(KnownBuildings[k]) == [8, 15, 12, 10, 6][k]
      && BuildingBasePrice(KnownBuildings[k]) == [12, 20, 18, 15, 10][k]
    ensures forall k :: 0 <= k < 5 ==>
      NpcBonusMultiplier(KnownNpcs[k]) == [0.2, 0.3, 0.5, 0.25, 0.4][k]
      && NpcBonusPrice(KnownNpcs[k]) == [2, 4, 6, 3, 5][k]
  {
  }
}
