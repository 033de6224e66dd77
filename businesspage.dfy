/**
 * The business management page: an 8 x 15 garden grid loaded from the saved
 * garden, a road built by clicking cells, and a business that spawns
 * visitors, walks them along the road and collects what they spend.
 *
 * The page's React state and refs are the fields of `Business`; each handler
 * is a method. Timers and animation frames are not modelled: the consumption
 * interval is a call of `HandleBuildingConsumption(now, draws)`, an animation
 * frame a call of `Animate(time)`, the expiry interval a call of
 * `ExpireActiveConsumptions(now)`.
 */
module BusinessPage {
  import opened Options
  import opened HexAdjacency
  import opened RoadBuilder
  import opened Economy
  import opened Consumption

  const GridRows: nat := 8
  const GridCols: nat := 15

  /** The saved garden as parsed from storage: per cell, the item placed there if any. */
  type Layout = seq<seq<Option<GameItem>>>

  /** `parsedGrid[rowIndex]?.[colIndex]?.content`: a row or column the saved
      garden does not have reads as empty. */
  function SavedContent(layout: Layout, r: int, c: int): Option<GameItem> {
    if 0 <= r < |layout| && 0 <= c < |layout[r]| then layout[r][c] else None
  }

  /** The item with its economic fields looked up by id: base consumption and
      base price for a building, bonus multiplier and bonus price for an NPC. */
  function Enrich(item: GameItem): (e: GameItem)
    ensures e.id == item.id && e.name == item.name && e.kind == item.kind
  {
    match item.kind
    case Building =>
      item.(baseConsumption := Some(BuildingBaseConsumption(item.id)), basePrice := Some(BuildingBasePrice(item.id)))
    case Npc =>
      item.(bonusMultiplier := Some(NpcBonusMultiplier(item.id)), bonusPrice := Some(NpcBonusPrice(item.id)))
  }

  function LoadedContent(layout: Layout, r: int, c: int): Option<GameItem> {
    match SavedContent(layout, r, c)
    case None => None
    case Some(item) => Some(Enrich(item))
  }

  /** The items of a loaded grid: every building consumes its table value
      (5 to 15) and carries its table price, every NPC carries its table bonus,
      and other fields come from the saved item. */
  lemma LoadedContentFacts(layout: Layout, r: int, c: int)
    ensures SavedContent(layout, r, c).None? <==> LoadedContent(layout, r, c).None?
    ensures LoadedContent(layout, r, c).Some? ==>
      var saved, item := SavedContent(layout, r, c).value, LoadedContent(layout, r, c).value;
      && item.id == saved.id && item.name == saved.name && item.kind == saved.kind
      && (item.kind == Building ==>
            && BaseConsumptionOf(item) == BuildingBaseConsumption(item.id)
            && 5 <= BaseConsumptionOf(item) <= 15
            && item.basePrice == Some(BuildingBasePrice(item.id))
            && item.bonusMultiplier == saved.bonusMultiplier && item.bonusPrice == saved.bonusPrice)
      && (item.kind == Npc ==>
            && item.bonusMultiplier == Some(NpcBonusMultiplier(item.id))
            && item.bonusPrice == Some(NpcBonusPrice(item.id))
            && item.baseConsumption == saved.baseConsumption && item.basePrice == saved.basePrice)
  {
  }

  /** The load effect's `newGrid.map(...)`: each cell of the empty grid takes
      the looked-up item of the saved garden at the same row and column. */
  function WithLayout(grid: seq<seq<GridCell>>, layout: Layout): (g: seq<seq<GridCell>>)
    ensures SameShape(g, grid)
    ensures forall i, j :: 0 <= i < |grid| && 0 <= j < |grid[i]| ==>
      g[i][j] == grid[i][j].(content := LoadedContent(layout, i, j))
  {
    seq(|grid|, i requires 0 <= i < |grid| =>
      seq(|grid[i]|, j requires 0 <= j < |grid[i]| => grid[i][j].(content := LoadedContent(layout, i, j))))
  }

  /** `resetBusiness`'s `currentGrid.map(...)`: every road flag cleared. */
  function ClearRoad(grid: seq<seq<GridCell>>): (g: seq<seq<GridCell>>)
    ensures SameShape(g, grid)
    ensures forall i, j :: 0 <= i < |grid| && 0 <= j < |grid[i]| ==>
      g[i][j] == grid[i][j].(isRoad := false, isStartPoint := false, isEndPoint := false, isValidNextCell := false)
  {
    seq(|grid|, i requires 0 <= i < |grid| =>
      seq(|grid[i]|, j requires 0 <= j < |grid[i]| =>
        grid[i][j].(isRoad := false, isStartPoint := false, isEndPoint := false, isValidNextCell := false)))
  }

  /** The cleared grid has no road at all and the same cells and items. */
  lemma ClearRoadIsEmptyRoad(grid: seq<seq<GridCell>>)
    requires IsRect(grid)
    ensures RoadInvariant(ClearRoad(grid), [], None, None)
    ensures SameCells(ClearRoad(grid), grid)
  {
  }

  /** Same shape, and every cell keeps its row, column and item. */
  predicate SameCells(g: seq<seq<GridCell>>, h: seq<seq<GridCell>>) {
    && SameShape(g, h)
    && forall i, j :: 0 <= i < |g| && 0 <= j < |g[i]| ==>
         g[i][j].row == h[i][j].row && g[i][j].col == h[i][j].col && g[i][j].content == h[i][j].content
  }

  lemma SameCellsKeep(g: seq<seq<GridCell>>, h: seq<seq<GridCell>>, least: int)
    requires SameCells(g, h) && IsRect(h)
    ensures IsRect(g)
    ensures Positioned(h) ==> Positioned(g)
    ensures BuildingsConsume(h, least) ==> BuildingsConsume(g, least)
  {
    if BuildingsConsume(h, least) {
      forall p | InGrid(g, p) && IsBuildingCell(g[p.row][p.col])
        ensures BaseConsumptionOf(g[p.row][p.col].content.value) >= least
      {
        assert InGrid(h, p);
      }
    }
  }

  /** `activeConsumptions` expiry: drop every highlight older than 2000 ms, keep
      the others as they are. */
  method ExpireActive(prev: map<Coord, ActiveConsumption>, now: int) returns (next: map<Coord, ActiveConsumption>)
    ensures forall k :: k in next ==> k in prev && next[k] == prev[k]
    ensures forall k :: k in prev ==> (k in next <==> now - prev[k].timestamp <= 2000)
  {
    next := prev;
    var todo := prev.Keys;
    while todo != {}
      invariant todo <= prev.Keys
      invariant forall k :: k in next ==> k in prev && next[k] == prev[k]
      invariant forall k :: k in todo ==> k in next
      invariant forall k :: k in prev && k !in todo ==> (k in next <==> now - prev[k].timestamp <= 2000)
      decreases todo
    {
      var key :| key in todo;
      if now - prev[key].timestamp > 2000 {
        next := next - {key};
      }
      todo := todo - {key};
    }
  }

  /** The page's state invariant: an 8 x 15 grid whose flags agree with the
      road, every building consuming at least 5, editing exactly while not
      running, a running business on a road of at least two cells with every
      visitor on it, no visitors while editing, and a log of at most 10. */
  ghost predicate PageInvariant(
    grid: seq<seq<GridCell>>, selectedCells: seq<Coord>, startPoint: Option<Coord>, endPoint: Option<Coord>,
    businessStarted: bool, users: seq<RoadUser>, isEditing: bool, totalCoins: int,
    consumptionEvents: seq<ConsumptionEvent>, lastUpdateTime: real)
  {
    && |grid| == GridRows
    && (forall i :: 0 <= i < |grid| ==> |grid[i]| == GridCols)
    && Positioned(grid)
    && RoadInvariant(grid, selectedCells, startPoint, endPoint)
    && BuildingsConsume(grid, 5)
    && isEditing == !businessStarted
    && (businessStarted ==> |selectedCells| >= 2)
    && (!businessStarted ==> users == [])
    && AllOnRoad(users, |selectedCells|)
    && (forall i :: 0 <= i < |users| ==> users[i].consumeCooldown == 5 && users[i].coins >= 0.0)
    && totalCoins >= 0
    && |consumptionEvents| <= 10
    && lastUpdateTime >= 0.0
  }

  lemma ClickedGridSameCells(grid: seq<seq<GridCell>>, g: seq<seq<GridCell>>, sel: seq<Coord>, ep: Option<Coord>, p: Coord)
    requires ClickedGrid(grid, g, sel, ep, p)
    ensures SameCells(g, grid)
  {
  }

  /** The page's click handler on its state values: the road builder's click,
      which keeps the page invariant and every cell's item. */
  method PageClick(
    grid: seq<seq<GridCell>>, sel: seq<Coord>, sp: Option<Coord>, ep: Option<Coord>,
    started: bool, users: seq<RoadUser>, isEditing: bool, coins: int, events: seq<ConsumptionEvent>, last: real,
    row: int, col: int)
    returns (grid': seq<seq<GridCell>>, sel': seq<Coord>, sp': Option<Coord>, ep': Option<Coord>)
    requires PageInvariant(grid, sel, sp, ep, started, users, isEditing, coins, events, last)
    requires 0 <= row < GridRows && 0 <= col < GridCols
    ensures ClickOutcome(grid, sel, sp, ep, isEditing, Coord(row, col), grid', sel', sp', ep')
    ensures SameCells(grid', grid)
    ensures PageInvariant(grid', sel', sp', ep', started, users, isEditing, coins, events, last)
  {
    grid', sel', sp', ep' := RoadBuilder.HandleCellClick(grid, sel, sp, ep, isEditing, row, col);
    if Accepts(sel, isEditing, Coord(row, col)) {
      ClickedGridSameCells(grid, grid', sel, ep, Coord(row, col));
    }
    SameCellsKeep(grid', grid, 5);
  }

  /** A consumption tick of the running business keeps the page invariant. */
  lemma TickKeepsPageInvariant(
    grid: seq<seq<GridCell>>, sel: seq<Coord>, sp: Option<Coord>, ep: Option<Coord>,
    users: seq<RoadUser>, coins: int, events: seq<ConsumptionEvent>, last: real,
    users': seq<RoadUser>, coins': int, events': seq<ConsumptionEvent>, now: int, d: TickDraws)
    requires PageInvariant(grid, sel, sp, ep, true, users, false, coins, events, last)
    requires users' == TickUsers(grid, sel, users, now, d)
    requires coins' > coins
    requires |events'| <= 10
    ensures PageInvariant(grid, sel, sp, ep, true, users', false, coins', events', last)
  {
    TickKeepsUsers(grid, sel, users, now, d);
  }

  /** The page's consumption tick on its state values: one tick of the running
      business, which raises the coin total and keeps the page invariant. */
  method PageTick(
    grid: seq<seq<GridCell>>, sel: seq<Coord>, sp: Option<Coord>, ep: Option<Coord>,
    users: seq<RoadUser>, coins: int, events: seq<ConsumptionEvent>, active: map<Coord, ActiveConsumption>, last: real,
    now: int, d: TickDraws)
    returns (users': seq<RoadUser>, coins': int, events': seq<ConsumptionEvent>, active': map<Coord, ActiveConsumption>)
    requires PageInvariant(grid, sel, sp, ep, true, users, false, coins, events, last) && ValidTickDraws(d)
    ensures TickOutcome(grid, sel, users, coins, events, active, now, d, users', coins', events', active')
    ensures coins' > coins
    ensures PageInvariant(grid, sel, sp, ep, true, users', false, coins', events', last)
  {
    users', coins', events', active' := ConsumptionTick(grid, sel, users, coins, events, active, now, d);
    TickOutcomeFacts(grid, sel, users, coins, events, active, now, d, users', coins', events', active');
    TickKeepsPageInvariant(grid, sel, sp, ep, users, coins, events, last, users', coins', events', now, d);
  }

  /** Resetting clears the road, keeps every cell's item, drops the visitors and
      returns to editing, all of which leaves a valid page. */
  lemma ResetKeepsPageInvariant(
    grid: seq<seq<GridCell>>, sel: seq<Coord>, sp: Option<Coord>, ep: Option<Coord>,
    started: bool, users: seq<RoadUser>, isEditing: bool, coins: int, events: seq<ConsumptionEvent>, last: real,
    grid': seq<seq<GridCell>>, sel': seq<Coord>, sp': Option<Coord>, ep': Option<Coord>,
    started': bool, users': seq<RoadUser>, isEditing': bool, last': real)
    requires PageInvariant(grid, sel, sp, ep, started, users, isEditing, coins, events, last)
    requires grid' == ClearRoad(grid) && sel' == [] && sp' == None && ep' == None
    requires !started' && users' == [] && isEditing' && last' == 0.0
    ensures SameCells(grid', grid)
    ensures PageInvariant(grid', sel', sp', ep', started', users', isEditing', coins, events, last')
  {
    ClearRoadIsEmptyRoad(grid);
    SameCellsKeep(ClearRoad(grid), grid, 5);
  }

  /** The tick as the interval runs it: the visitors are ticked from the
      current list, the setter's functional update, but the base income is
      computed from `captured`, the visitor list of the render that created
      the interval. */
  predicate CapturedTickOutcome(
    g: seq<seq<GridCell>>, path: seq<Coord>, captured: seq<RoadUser>, users: seq<RoadUser>, totalCoins: int,
    events: seq<ConsumptionEvent>, active: map<Coord, ActiveConsumption>, now: int, d: TickDraws,
    users': seq<RoadUser>, totalCoins': int, events': seq<ConsumptionEvent>, active': map<Coord, ActiveConsumption>)
    requires IsRect(g) && NonNegativePositions(users) && 0.0 <= d.baseIncome < 1.0
  {
    var newEvents := TickEvents(g, path, users, now, d, |users|);
    var totalEarned := SumAmounts(newEvents);
    && users' == TickUsers(g, path, users, now, d)
    && active' == ApplyActive(active, newEvents)
    && (totalEarned > 0 ==> totalCoins' == totalCoins + totalEarned && events' == LastN(events + newEvents, 10))
    && (totalEarned <= 0 ==> totalCoins' == totalCoins + BaseIncome(d.baseIncome, |captured|) && events' == events)
  }

  /** The interval that `startBusiness` creates calls the
      `handleBuildingConsumption` of the render in which the button was
      pressed, whose visitor list is the pre-start one, empty by the page
      invariant. So as written a tick without purchases earns exactly 1 coin,
      whatever the draw and however many visitors walk the road, while the
      tick that reads the current visitors earns |users| coins on the draw
      (|users| - 1) / |users|. */
  lemma CapturedBaseIncomeIsOne(
    grid: seq<seq<GridCell>>, sel: seq<Coord>, sp: Option<Coord>, ep: Option<Coord>,
    captured: seq<RoadUser>, coins: int, events: seq<ConsumptionEvent>, last: real,
    users: seq<RoadUser>, active: map<Coord, ActiveConsumption>, now: int, d: TickDraws,
    users': seq<RoadUser>, coins': int, events': seq<ConsumptionEvent>, active': map<Coord, ActiveConsumption>)
    requires PageInvariant(grid, sel, sp, ep, false, captured, true, coins, events, last)
    requires NonNegativePositions(users) && ValidTickDraws(d)
    requires CapturedTickOutcome(grid, sel, captured, users, coins, events, active, now, d,
                                 users', coins', events', active')
    requires TickEvents(grid, sel, users, now, d, |users|) == []
    ensures coins' == coins + 1 && events' == events
    ensures |users| >= 2 && d.baseIncome == (|users| - 1) as real / |users| as real ==>
      BaseIncome(d.baseIncome, |users|) == |users| > coins' - coins
  {
    if |users| >= 2 && d.baseIncome == (|users| - 1) as real / |users| as real {
      BaseIncomeReachesCount(|users|);
    }
  }

  class Business {
    var grid: seq<seq<GridCell>>
    var selectedCells: seq<Coord>
    var startPoint: Option<Coord>
    var endPoint: Option<Coord>
    /** `businessStarted`, and `businessStartedRef.current`, which the page keeps equal to it. */
    var businessStarted: bool
    var users: seq<RoadUser>
    var isEditing: bool
    var totalCoins: int
    var gardenLoaded: bool
    var lastUpdateTime: real
    var consumptionEvents: seq<ConsumptionEvent>
    var activeConsumptions: map<Coord, ActiveConsumption>

    ghost predicate Valid()
      reads this
    {
      PageInvariant(grid, selectedCells, startPoint, endPoint, businessStarted, users, isEditing, totalCoins,
                    consumptionEvents, lastUpdateTime)
    }

    /** Mount: an empty 8 x 15 grid, filled from the saved garden when there is one. */
    constructor (layout: Option<Layout>)
      ensures Valid()
      ensures forall i, j :: 0 <= i < GridRows && 0 <= j < GridCols ==>
        grid[i][j].content == (if layout.Some? then LoadedContent(layout.value, i, j) else None)
      ensures gardenLoaded == layout.Some?
      ensures selectedCells == [] && startPoint == None && endPoint == None
      ensures !businessStarted && isEditing && users == [] && totalCoins == 0
      ensures consumptionEvents == [] && activeConsumptions == map[] && lastUpdateTime == 0.0
    {
      var newGrid := CreateEmptyGrid(GridRows, GridCols);
      if layout.Some? {
        newGrid := WithLayout(newGrid, layout.value);
        forall p | InGrid(newGrid, p) && IsBuildingCell(newGrid[p.row][p.col])
          ensures BaseConsumptionOf(newGrid[p.row][p.col].content.value) >= 5
        {
          LoadedContentFacts(layout.value, p.row, p.col);
        }
      }
      grid := newGrid;
      gardenLoaded := layout.Some?;
      selectedCells := [];
      startPoint := None;
      endPoint := None;
      businessStarted := false;
      users := [];
      isEditing := true;
      totalCoins := 0;
      lastUpdateTime := 0.0;
      consumptionEvents := [];
      activeConsumptions := map[];
    }

    /** `handleCellClick(row, col)` on one of the grid's cells. */
    method HandleCellClick(row: int, col: int)
      requires Valid() && 0 <= row < GridRows && 0 <= col < GridCols
      modifies this
      ensures Valid()
      ensures ClickOutcome(old(grid), old(selectedCells), old(startPoint), old(endPoint), old(isEditing), Coord(row, col),
                           grid, selectedCells, startPoint, endPoint)
      ensures businessStarted == old(businessStarted) && isEditing == old(isEditing) && users == old(users)
      ensures totalCoins == old(totalCoins) && consumptionEvents == old(consumptionEvents)
      ensures activeConsumptions == old(activeConsumptions) && lastUpdateTime == old(lastUpdateTime)
      ensures gardenLoaded == old(gardenLoaded)
    {
      grid, selectedCells, startPoint, endPoint := PageClick(grid, selectedCells, startPoint, endPoint,
        businessStarted, users, isEditing, totalCoins, consumptionEvents, lastUpdateTime, row, col);
    }

    /** `startBusiness`: on a road of at least two cells, spawn the visitors and
        switch from editing to running. */
    method StartBusiness(d: SpawnDraws)
      requires Valid() && ValidSpawnDraws(d)
      modifies this
      ensures Valid()
      ensures |old(selectedCells)| < 2 ==>
        users == old(users) && businessStarted == old(businessStarted) && isEditing == old(isEditing)
      ensures |old(selectedCells)| >= 2 ==>
        && |users| == UserCount(d.count)
        && (forall i :: 0 <= i < |users| ==> users[i] == NewUser(i, |selectedCells|, d))
        && businessStarted && !isEditing
      ensures grid == old(grid) && selectedCells == old(selectedCells) && startPoint == old(startPoint) && endPoint == old(endPoint)
      ensures totalCoins == old(totalCoins) && consumptionEvents == old(consumptionEvents)
      ensures activeConsumptions == old(activeConsumptions) && lastUpdateTime == old(lastUpdateTime)
      ensures gardenLoaded == old(gardenLoaded)
    {
      if |selectedCells| < 2 {
        return;
      }
      var newUsers := SpawnUsers(|selectedCells|, d);
      forall i | 0 <= i < |newUsers|
        ensures UserOnRoad(newUsers[i], |selectedCells|) && newUsers[i].consumeCooldown == 5 && newUsers[i].coins >= 0.0
      {
        NewUserRanges(i, |selectedCells|, d);
      }
      users := newUsers;
      businessStarted := true;
      isEditing := false;
    }

    /** `handleBuildingConsumption`, one tick of the one-second interval. */
    method HandleBuildingConsumption(now: int, d: TickDraws)
      requires Valid() && ValidTickDraws(d)
      modifies this
      ensures Valid()
      ensures !old(businessStarted) ==>
        users == old(users) && totalCoins == old(totalCoins) && consumptionEvents == old(consumptionEvents)
        && activeConsumptions == old(activeConsumptions)
      ensures old(businessStarted) ==>
        && TickOutcome(grid, selectedCells, old(users), old(totalCoins), old(consumptionEvents), old(activeConsumptions), now, d,
                       users, totalCoins, consumptionEvents, activeConsumptions)
        && totalCoins > old(totalCoins)
      ensures grid == old(grid) && selectedCells == old(selectedCells) && startPoint == old(startPoint) && endPoint == old(endPoint)
      ensures businessStarted == old(businessStarted) && isEditing == old(isEditing)
      ensures lastUpdateTime == old(lastUpdateTime) && gardenLoaded == old(gardenLoaded)
    {
      if !businessStarted {
        return;
      }
      var u, coins, events, active := PageTick(grid, selectedCells, startPoint, endPoint, users, totalCoins,
                                               consumptionEvents, activeConsumptions, lastUpdateTime, now, d);
      users, totalCoins, consumptionEvents, activeConsumptions := u, coins, events, active;
    }

    /** `resetBusiness`: the road is cleared and the items stay, the selection
        and the visitors are dropped, and editing resumes; the coins, the event
        log and the highlights are kept. */
    method ResetBusiness()
      requires Valid()
      modifies this
      ensures Valid()
      ensures grid == ClearRoad(old(grid)) && SameCells(grid, old(grid))
      ensures selectedCells == [] && startPoint == None && endPoint == None
      ensures !businessStarted && isEditing && users == [] && lastUpdateTime == 0.0
      ensures totalCoins == old(totalCoins) && consumptionEvents == old(consumptionEvents)
      ensures activeConsumptions == old(activeConsumptions) && gardenLoaded == old(gardenLoaded)
    {
      ResetKeepsPageInvariant(grid, selectedCells, startPoint, endPoint, businessStarted, users, isEditing, totalCoins,
                              consumptionEvents, lastUpdateTime, ClearRoad(grid), [], None, None, false, [], true, 0.0);
      grid, selectedCells, startPoint, endPoint := ClearRoad(grid), [], None, None;
      businessStarted, users, isEditing, lastUpdateTime := false, [], true, 0.0;
    }

    /** One animation frame at time `time` (ms): the first frame after a start
        only records the time; later frames move every visitor by speed x
        elapsed seconds. Frames are delivered only while the business runs on
        a road of two cells or more. */
    method Animate(time: real)
      requires Valid() && time >= lastUpdateTime
      modifies this
      ensures Valid()
      ensures !old(businessStarted) || |old(selectedCells)| < 2 ==>
        users == old(users) && lastUpdateTime == old(lastUpdateTime)
      ensures old(businessStarted) && |old(selectedCells)| >= 2 ==>
        && lastUpdateTime == time
        && users == MoveAll(old(users), if old(lastUpdateTime) == 0.0 then 0.0 else (time - old(lastUpdateTime)) / 1000.0,
                            |selectedCells|)
      ensures grid == old(grid) && selectedCells == old(selectedCells) && startPoint == old(startPoint) && endPoint == old(endPoint)
      ensures businessStarted == old(businessStarted) && isEditing == old(isEditing)
      ensures totalCoins == old(totalCoins) && consumptionEvents == old(consumptionEvents)
      ensures activeConsumptions == old(activeConsumptions) && gardenLoaded == old(gardenLoaded)
    {
      if !businessStarted || |selectedCells| < 2 {
        return;
      }
      if lastUpdateTime == 0.0 {
        lastUpdateTime := time;
      }
      var deltaTime := (time - lastUpdateTime) / 1000.0;
      lastUpdateTime := time;
      users := MoveAll(users, deltaTime, |selectedCells|);
    }

    /** The 500 ms expiry interval over `activeConsumptions`. */
    method ExpireActiveConsumptions(now: int)
      requires Valid()
      modifies this
      ensures Valid()
      ensures forall k :: k in activeConsumptions ==> k in old(activeConsumptions) && activeConsumptions[k] == old(activeConsumptions)[k]
      ensures forall k :: k in old(activeConsumptions) ==>
        (k in activeConsumptions <==> now - old(activeConsumptions)[k].timestamp <= 2000)
      ensures grid == old(grid) && selectedCells == old(selectedCells) && startPoint == old(startPoint) && endPoint == old(endPoint)
      ensures businessStarted == old(businessStarted) && isEditing == old(isEditing) && users == old(users)
      ensures totalCoins == old(totalCoins) && consumptionEvents == old(consumptionEvents)
      ensures lastUpdateTime == old(lastUpdateTime) && gardenLoaded == old(gardenLoaded)
    {
      activeConsumptions := ExpireActive(activeConsumptions, now);
    }
  }

  /** While the business runs, no visitor ever stands beyond the road, so the
      position guard of the consumption scan never fires. */
  lemma PositionGuardNeverFires(users: seq<RoadUser>, len: nat)
    requires AllOnRoad(users, len)
    ensures forall i :: 0 <= i < |users| ==> 0 <= users[i].position.Floor < len
  {
    forall i | 0 <= i < |users|
      ensures 0 <= users[i].position.Floor < len
    {
      FloorBelow(users[i].position, len);
    }
  }

  lemma FloorBelow(x: real, n: nat)
    requires 0.0 <= x < n as real
    ensures 0 <= x.Floor < n
  {
  }

  /** A visitor at 0.01 from the end of a 5-cell road, walking one cell per
      second, is back at the start after one second. */
  lemma WrapAroundExample(u: RoadUser)
    requires u.position == 4.99 && u.speed == 1.0
    ensures MoveUser(u, 1.0, 5).position == 0.0
  {
  }
}
