/**
 * The extracted customer-simulation hook. It owns only `lastUpdateTimeRef`;
 * the visitors, the coin total, the event log and the highlights belong to the
 * page and are changed through the setters it is given. All of these are the
 * fields of `Simulation`. The grid, the selection and the running flags are
 * props, so they are parameters of each method.
 *
 * The hook's consumption engine is the page's (the same scan, roll, bonus and
 * formula), so each method reuses the `Consumption` definitions. Unlike the
 * page, `startBusiness` here only spawns visitors: it never sets the running
 * flag, which the parent owns. Likewise `resetBusiness` here only drops the
 * visitors and the frame time; the road and the coins belong to the parent.
 */
module CustomerSimulation {
  import opened Options
  import opened HexAdjacency
  import opened RoadBuilder
  import opened Consumption

  /** Visitors never stand before the start of the road and never walk backwards. */
  predicate MovingForward(users: seq<RoadUser>) {
    forall i :: 0 <= i < |users| ==> users[i].position >= 0.0 && users[i].speed >= 0.0
  }

  /** A movement frame with a non-negative step keeps every visitor moving
      forward from the start of the road, and keeps a visitor on a road of
      `len` cells on it. */
  lemma MoveAllKeepsForward(users: seq<RoadUser>, dt: real, len: nat)
    requires MovingForward(users) && dt >= 0.0
    ensures MovingForward(MoveAll(users, dt, len))
    ensures AllOnRoad(users, len) ==> AllOnRoad(MoveAll(users, dt, len), len)
  {
  }

  /** The log after a tick holds at most 10 entries, whatever was earned. */
  lemma TickLogBounded(
    g: seq<seq<GridCell>>, path: seq<Coord>, users: seq<RoadUser>, totalCoins: int,
    events: seq<ConsumptionEvent>, active: map<Coord, ActiveConsumption>, now: int, d: TickDraws,
    users': seq<RoadUser>, totalCoins': int, events': seq<ConsumptionEvent>, active': map<Coord, ActiveConsumption>)
    requires IsRect(g) && NonNegativePositions(users) && 0.0 <= d.baseIncome < 1.0 && |events| <= 10
    requires TickOutcome(g, path, users, totalCoins, events, active, now, d, users', totalCoins', events', active')
    ensures |events'| <= 10
    ensures totalCoins' > totalCoins
  {
    var newEvents := TickEvents(g, path, users, now, d, |users|);
    EventLogIsSuffix(events + newEvents);
    TickIncreasesCoins(totalCoins, SumAmounts(newEvents), d.baseIncome, |users|);
  }

  class Simulation {
    /** The parent's `users`, written through `setUsers`. */
    var users: seq<RoadUser>
    /** The parent's `totalCoins`, written through `setTotalCoins`. */
    var totalCoins: int
    /** The parent's `consumptionEvents`, written through `setConsumptionEvents`. */
    var consumptionEvents: seq<ConsumptionEvent>
    /** The parent's `activeConsumptions`, written through `setActiveConsumptions`. */
    var activeConsumptions: map<Coord, ActiveConsumption>
    /** `lastUpdateTimeRef.current`, in milliseconds; 0 means no frame yet. */
    var lastUpdateTime: real

    ghost predicate Valid()
      reads this
    {
      MovingForward(users) && |consumptionEvents| <= 10 && lastUpdateTime >= 0.0
    }

    /** Mounting the hook over the parent's current state. */
    constructor (users0: seq<RoadUser>, coins0: int, events0: seq<ConsumptionEvent>, active0: map<Coord, ActiveConsumption>)
      requires MovingForward(users0) && |events0| <= 10
      ensures Valid()
      ensures users == users0 && totalCoins == coins0 && consumptionEvents == events0 && activeConsumptions == active0
      ensures lastUpdateTime == 0.0
    {
      users := users0;
      totalCoins := coins0;
      consumptionEvents := events0;
      activeConsumptions := active0;
      lastUpdateTime := 0.0;
    }

    /** `startBusiness`: on a road of at least two cells, replace the visitors
        by 3 to 7 fresh ones; nothing else changes. */
    method StartBusiness(selectedCells: seq<Coord>, d: SpawnDraws)
      requires Valid() && ValidSpawnDraws(d)
      modifies this
      ensures Valid()
      ensures |selectedCells| < 2 ==> users == old(users)
      ensures |selectedCells| >= 2 ==>
        && |users| == UserCount(d.count)
        && (forall i :: 0 <= i < |users| ==> users[i] == NewUser(i, |selectedCells|, d))
        && AllOnRoad(users, |selectedCells|)
      ensures totalCoins == old(totalCoins) && consumptionEvents == old(consumptionEvents)
      ensures activeConsumptions == old(activeConsumptions) && lastUpdateTime == old(lastUpdateTime)
    {
      if |selectedCells| < 2 {
        return;
      }
      var newUsers := SpawnUsers(|selectedCells|, d);
      forall i | 0 <= i < |newUsers|
        ensures UserOnRoad(newUsers[i], |selectedCells|)
      {
        NewUserRanges(i, |selectedCells|, d);
      }
      users := newUsers;
    }

    /** `handleBuildingConsumption`: nothing while `businessStartedRef.current`
        is false; otherwise one consumption tick over the visitors, after
        which the coin total is strictly larger. */
    method HandleBuildingConsumption(grid: seq<seq<GridCell>>, selectedCells: seq<Coord>, businessStartedRef: bool,
                                     now: int, d: TickDraws)
      requires Valid() && IsRect(grid) && ValidTickDraws(d)
      modifies this
      ensures Valid()
      ensures !businessStartedRef ==>
        users == old(users) && totalCoins == old(totalCoins) && consumptionEvents == old(consumptionEvents)
        && activeConsumptions == old(activeConsumptions)
      ensures businessStartedRef ==>
        && TickOutcome(grid, selectedCells, old(users), old(totalCoins), old(consumptionEvents), old(activeConsumptions),
                       now, d, users, totalCoins, consumptionEvents, activeConsumptions)
        && totalCoins > old(totalCoins)
      ensures lastUpdateTime == old(lastUpdateTime)
    {
      if !businessStartedRef {
        return;
      }
      var u, coins, events, active := ConsumptionTick(grid, selectedCells, users, totalCoins, consumptionEvents,
                                                      activeConsumptions, now, d);
      TickLogBounded(grid, selectedCells, users, totalCoins, consumptionEvents, activeConsumptions, now, d,
                     u, coins, events, active);
      TickKeepsUsers(grid, selectedCells, users, now, d);
      users, totalCoins, consumptionEvents, activeConsumptions := u, coins, events, active;
    }

    /** `resetBusiness`: no visitors and no frame time; the coins, the log and
        the highlights stay. */
    method ResetBusiness()
      requires Valid()
      modifies this
      ensures Valid()
      ensures users == [] && lastUpdateTime == 0.0
      ensures totalCoins == old(totalCoins) && consumptionEvents == old(consumptionEvents)
      ensures activeConsumptions == old(activeConsumptions)
    {
      users := [];
      lastUpdateTime := 0.0;
    }

    /** One animation frame at time `time` (ms) of the movement effect, which
        runs only while the business runs on a road of two cells or more. */
    method Animate(businessStarted: bool, selectedCells: seq<Coord>, time: real)
      requires Valid() && time >= lastUpdateTime
      modifies this
      ensures Valid()
      ensures !businessStarted || |selectedCells| < 2 ==>
        users == old(users) && lastUpdateTime == old(lastUpdateTime)
      ensures businessStarted && |selectedCells| >= 2 ==>
        && lastUpdateTime == time
        && users == MoveAll(old(users), if old(lastUpdateTime) == 0.0 then 0.0 else (time - old(lastUpdateTime)) / 1000.0,
                            |selectedCells|)
      ensures businessStarted && |selectedCells| >= 2 && AllOnRoad(old(users), |selectedCells|) ==>
        AllOnRoad(users, |selectedCells|)
      ensures totalCoins == old(totalCoins) && consumptionEvents == old(consumptionEvents)
      ensures activeConsumptions == old(activeConsumptions)
    {
      if !businessStarted || |selectedCells| < 2 {
        return;
      }
      if lastUpdateTime == 0.0 {
        lastUpdateTime := time;
      }
      var deltaTime := (time - lastUpdateTime) / 1000.0;
      lastUpdateTime := time;
      MoveAllKeepsForward(users, deltaTime, |selectedCells|);
      users := MoveAll(users, deltaTime, |selectedCells|);
    }
  }
}
