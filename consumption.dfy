/**
 * The visitor economy of the business page: spawning visitors, moving them
 * along the road, and the once-per-second consumption scan that lets each
 * visitor spend at most once at an adjacent building.
 *
 * `Math.random()` and `Date.now()` are parameters: `SpawnDraws` and
 * `TickDraws` hold one value per random call, indexed by the visitor's index
 * and, where one visitor draws several times, by the cell the draw is about.
 */
module Consumption {
  import opened Options
  import opened HexAdjacency
  import opened RoadBuilder

  datatype UserType = Normal | Wealthy

  /** A visitor. `id` is the index i that the source renders as `user-<i>`. */
  datatype RoadUser = RoadUser(
    id: nat,
    kind: UserType,
    position: real,
    speed: real,
    coins: real,
    lastConsumedBuilding: Option<string>,
    lastConsumeTime: Option<int>,
    consumeCooldown: int)

  datatype ConsumptionEvent = ConsumptionEvent(
    buildingId: string,
    buildingName: string,
    amount: int,
    position: Coord,
    timestamp: int,
    isSpecial: bool)

  /** The short-lived highlight of a building that was just spent at. */
  datatype ActiveConsumption = ActiveConsumption(amount: int, timestamp: int, isSpecial: bool)

  /** An NPC found next to a building, with the bonus the scan gives it. */
  datatype PlacedNpc = PlacedNpc(item: GameItem, position: Coord, bonusMultiplier: real, bonusPrice: int)

  /** Random draws of one consumption tick. */
  datatype TickDraws = TickDraws(
    spend: (nat, Coord) -> real,   // visitor i's 70% roll at the building at a cell
    bonus: (nat, Coord) -> real,   // the bonus price draw of the NPC at a cell, for visitor i's building
    special: nat -> real,          // visitor i's 10% special-purchase roll (wealthy visitors only)
    specialFactor: nat -> real,    // visitor i's 2-4x special multiplier draw
    baseIncome: real)              // the baseline income draw of a tick without spending

  ghost predicate ValidTickDraws(d: TickDraws) {
    && (forall i: nat, p: Coord :: 0.0 <= d.bonus(i, p) < 1.0)
    && (forall i: nat :: 0.0 <= d.specialFactor(i) < 1.0)
    && 0.0 <= d.baseIncome < 1.0
  }

  /** Random draws of `startBusiness`. */
  datatype SpawnDraws = SpawnDraws(
    count: real,
    wealthy: nat -> real,
    position: nat -> real,
    speed: nat -> real,
    coins: nat -> real)

  ghost predicate ValidSpawnDraws(d: SpawnDraws) {
    && 0.0 <= d.count < 1.0
    && (forall i: nat :: 0.0 <= d.position(i) < 1.0)
    && (forall i: nat :: 0.0 <= d.speed(i) < 1.0)
    && (forall i: nat :: 0.0 <= d.coins(i) < 1.0)
  }

  function Max(a: real, b: real): real {
    if a >= b then a else b
  }

  // ---------------------------------------------------------------------------
  // Spawning

  /** `Math.floor(Math.random() * 5) + 3`. */
  function UserCount(x: real): (n: int)
    requires 0.0 <= x < 1.0
    ensures 3 <= n <= 7
  {
    (x * 5.0).Floor + 3
  }

  /** `Math.random() * n`: a draw in [0, 1) scaled to [0, n). */
  function ScaleDraw(x: real, n: real): (r: real)
    ensures 0.0 <= x < 1.0 && n > 0.0 ==> 0.0 <= r < n
  {
    ScaledDrawBelow(x, n);
    x * n
  }

  /** Visitor i as `startBusiness` creates it on a road of `len` cells. */
  function NewUser(i: nat, len: nat, d: SpawnDraws): RoadUser {
    var isWealthy := d.wealthy(i) > 0.7;
    RoadUser(
      i,
      if isWealthy then Wealthy else Normal,
      ScaleDraw(d.position(i), len as real),
      d.speed(i) * 0.3 + 0.1,
      if isWealthy then ((d.coins(i) * 30.0).Floor + 20) as real else ((d.coins(i) * 10.0).Floor + 1) as real,
      None,
      None,
      5)
  }

  /** The loop of `startBusiness` that pushes the new visitors. */
  method SpawnUsers(len: nat, d: SpawnDraws) returns (users: seq<RoadUser>)
    requires ValidSpawnDraws(d)
    ensures |users| == UserCount(d.count)
    ensures forall i :: 0 <= i < |users| ==> users[i] == NewUser(i, len, d)
  {
    users := [];
    var userCount := UserCount(d.count);
    var i := 0;
    while i < userCount
      invariant 0 <= i <= userCount && |users| == i
      invariant forall k :: 0 <= k < i ==> users[k] == NewUser(k, len, d)
    {
      users := users + [NewUser(i, len, d)];
      i := i + 1;
    }
  }

  /** A visitor stands on the road and walks at a non-negative speed. */
  predicate UserOnRoad(u: RoadUser, len: nat) {
    0.0 <= u.position < len as real && u.speed >= 0.0
  }

  /** A fresh visitor: on the road, speed in [0.1, 0.4), cooldown 5 seconds,
      no spending yet, 20-49 coins when wealthy and 1-10 otherwise. */
  lemma NewUserRanges(i: nat, len: nat, d: SpawnDraws)
    requires ValidSpawnDraws(d) && len > 0
    ensures var u := NewUser(i, len, d);
      && UserOnRoad(u, len)
      && 0.1 <= u.speed < 0.4
      && u.consumeCooldown == 5 && u.lastConsumedBuilding == None && u.lastConsumeTime == None
      && (u.kind == Wealthy <==> d.wealthy(i) > 0.7)
      && (u.kind == Wealthy ==> 20.0 <= u.coins <= 49.0)
      && (u.kind == Normal ==> 1.0 <= u.coins <= 10.0)
  {
    var c := d.coins(i);
    assert 0.0 <= c * 30.0 < 30.0 && 0.0 <= c * 10.0 < 10.0;
  }

  /** A draw in [0, 1) scaled by a positive n lands in [0, n). */
  lemma ScaledDrawBelow(x: real, n: real)
    ensures 0.0 <= x < 1.0 && n > 0.0 ==> 0.0 <= x * n < n
  {
    if 0.0 <= x < 1.0 && n > 0.0 {
      assert n - x * n == (1.0 - x) * n;
    }
  }

  // ---------------------------------------------------------------------------
  // Movement

  /** One animation frame for one visitor: advance by speed x dt, and go back
      to the start of the road once the end is reached. */
  function MoveUser(u: RoadUser, dt: real, len: nat): (v: RoadUser)
    ensures v == u.(position := v.position)
    ensures u.position + u.speed * dt >= len as real ==> v.position == 0.0
    ensures u.position + u.speed * dt < len as real ==> v.position == u.position + u.speed * dt
    ensures UserOnRoad(u, len) && dt >= 0.0 ==> UserOnRoad(v, len)
    ensures u.position >= 0.0 && u.speed >= 0.0 && dt >= 0.0 ==> v.position >= 0.0
  {
    var newPosition := u.position + u.speed * dt;
    if newPosition >= len as real then u.(position := 0.0) else u.(position := newPosition)
  }

  function MoveAll(users: seq<RoadUser>, dt: real, len: nat): (moved: seq<RoadUser>)
    ensures |moved| == |users|
    ensures forall i :: 0 <= i < |users| ==> moved[i] == MoveUser(users[i], dt, len)
  {
    seq(|users|, i requires 0 <= i < |users| => MoveUser(users[i], dt, len))
  }

  // ---------------------------------------------------------------------------
  // NPCs next to a building

  predicate IsBuildingCell(c: GridCell) {
    c.content.Some? && c.content.value.kind == Building
  }

  predicate IsNpcCell(c: GridCell) {
    c.content.Some? && c.content.value.kind == Npc
  }

  /** `Math.floor(Math.random() * 5) + 1`. */
  function BonusPriceOf(x: real): (price: int)
    ensures 0.0 <= x < 1.0 ==> 1 <= price <= 5
  {
    (x * 5.0).Floor + 1
  }

  /** The NPC at `p` as the scan reports it: the table's bonus values are
      replaced by a fixed 0.2 multiplier and a random 1-5 price. */
  function NearbyNpc(c: GridCell, p: Coord, d: TickDraws, ui: nat): PlacedNpc
    requires IsNpcCell(c)
  {
    PlacedNpc(c.content.value, p, 0.2, BonusPriceOf(d.bonus(ui, p)))
  }

  predicate NpcNear(g: seq<seq<GridCell>>, p: Coord, b: Coord)
    requires InGrid(g, p)
  {
    IsNpcCell(g[p.row][p.col]) && IsAdjacent(p, b)
  }

  /** What every reported NPC satisfies: it stands on the grid in an NPC cell
      adjacent to the building and carries the scan's bonus values. */
  predicate ReportedNpc(g: seq<seq<GridCell>>, n: PlacedNpc, b: Coord, d: TickDraws, ui: nat) {
    && InGrid(g, n.position) && NpcNear(g, n.position, b)
    && n == NearbyNpc(g[n.position.row][n.position.col], n.position, d, ui)
  }

  /** NPCs next to `b` in row `r`, from column `c` on. */
  function NpcsInRow(g: seq<seq<GridCell>>, r: nat, c: nat, b: Coord, d: TickDraws, ui: nat): seq<PlacedNpc>
    requires IsRect(g) && r < |g| && c <= |g[0]|
    decreases |g[0]| - c
  {
    if c == |g[0]| then []
    else
      var p := Coord(r, c);
      (if NpcNear(g, p, b) then [NearbyNpc(g[r][c], p, d, ui)] else []) + NpcsInRow(g, r, c + 1, b, d, ui)
  }

  /** NPCs next to `b` from row `r` on, in row-major order. */
  function NpcsFrom(g: seq<seq<GridCell>>, r: nat, b: Coord, d: TickDraws, ui: nat): seq<PlacedNpc>
    requires IsRect(g) && r <= |g|
    decreases |g| - r
  {
    if r == |g| then [] else NpcsInRow(g, r, 0, b, d, ui) + NpcsFrom(g, r + 1, b, d, ui)
  }

  function Positions(npcs: seq<PlacedNpc>): (ps: seq<Coord>)
    ensures |ps| == |npcs| && forall k :: 0 <= k < |npcs| ==> ps[k] == npcs[k].position
  {
    seq(|npcs|, k requires 0 <= k < |npcs| => npcs[k].position)
  }

  lemma PositionsAppend(a: seq<PlacedNpc>, b: seq<PlacedNpc>)
    ensures Positions(a + b) == Positions(a) + Positions(b)
  {
  }

  predicate AllReported(g: seq<seq<GridCell>>, ns: seq<PlacedNpc>, b: Coord, d: TickDraws, ui: nat) {
    forall k :: 0 <= k < |ns| ==> ReportedNpc(g, ns[k], b, d, ui)
  }

  /** Every entry lies in row `r`, at column `c` or later. */
  predicate InRowFrom(ns: seq<PlacedNpc>, r: int, c: int) {
    forall k :: 0 <= k < |ns| ==> ns[k].position.row == r && ns[k].position.col >= c
  }

  /** Every entry lies in row `r` or later. */
  predicate InRowsFrom(ns: seq<PlacedNpc>, r: int) {
    forall k :: 0 <= k < |ns| ==> ns[k].position.row >= r
  }

  lemma {:induction false} NpcsInRowSound(g: seq<seq<GridCell>>, r: nat, c: nat, b: Coord, d: TickDraws, ui: nat)
    requires IsRect(g) && r < |g| && c <= |g[0]|
    ensures AllReported(g, NpcsInRow(g, r, c, b, d, ui), b, d, ui)
    ensures InRowFrom(NpcsInRow(g, r, c, b, d, ui), r, c)
    decreases |g[0]| - c
  {
    if c < |g[0]| {
      NpcsInRowSound(g, r, c + 1, b, d, ui);
      var p := Coord(r, c);
      var head := if NpcNear(g, p, b) then [NearbyNpc(g[r][c], p, d, ui)] else [];
      var rest := NpcsInRow(g, r, c + 1, b, d, ui);
      assert NpcsInRow(g, r, c, b, d, ui) == head + rest;
      assert AllReported(g, head, b, d, ui) && InRowFrom(head, r, c);
      ConcatPreserves(g, head, rest, b, d, ui);
    }
  }

  lemma ConcatPreserves(g: seq<seq<GridCell>>, xs: seq<PlacedNpc>, ys: seq<PlacedNpc>, b: Coord, d: TickDraws, ui: nat)
    ensures AllReported(g, xs, b, d, ui) && AllReported(g, ys, b, d, ui) ==> AllReported(g, xs + ys, b, d, ui)
    ensures forall r, c :: InRowFrom(xs, r, c) && InRowFrom(ys, r, c + 1) ==> InRowFrom(xs + ys, r, c)
    ensures forall r :: InRowsFrom(xs, r) && InRowsFrom(ys, r + 1) ==> InRowsFrom(xs + ys, r)
  {
  }

  lemma {:induction false} NpcsFromSound(g: seq<seq<GridCell>>, r: nat, b: Coord, d: TickDraws, ui: nat)
    requires IsRect(g) && r <= |g|
    ensures AllReported(g, NpcsFrom(g, r, b, d, ui), b, d, ui)
    ensures InRowsFrom(NpcsFrom(g, r, b, d, ui), r)
    decreases |g| - r
  {
    if r < |g| {
      NpcsInRowSound(g, r, 0, b, d, ui);
      NpcsFromSound(g, r + 1, b, d, ui);
      var row, rest := NpcsInRow(g, r, 0, b, d, ui), NpcsFrom(g, r + 1, b, d, ui);
      assert InRowsFrom(row, r);
      ConcatPreserves(g, row, rest, b, d, ui);
    }
  }

  lemma {:induction false} NpcsInRowComplete(g: seq<seq<GridCell>>, r: nat, c: nat, b: Coord, d: TickDraws, ui: nat)
    requires IsRect(g) && r < |g| && c <= |g[0]|
    ensures forall j :: c <= j < |g[0]| ==> (Coord(r, j) in Positions(NpcsInRow(g, r, c, b, d, ui)) <==> NpcNear(g, Coord(r, j), b))
    decreases |g[0]| - c
  {
    if c < |g[0]| {
      NpcsInRowComplete(g, r, c + 1, b, d, ui);
      var p := Coord(r, c);
      var head := if NpcNear(g, p, b) then [NearbyNpc(g[r][c], p, d, ui)] else [];
      var rest := NpcsInRow(g, r, c + 1, b, d, ui);
      assert NpcsInRow(g, r, c, b, d, ui) == head + rest;
      PositionsAppend(head, rest);
      NpcsInRowSound(g, r, c + 1, b, d, ui);
      assert p !in Positions(rest) by {
        assert forall k :: 0 <= k < |rest| ==> Positions(rest)[k].col >= c + 1;
      }
      assert Positions(head) == if NpcNear(g, p, b) then [p] else [];
      forall j | c <= j < |g[0]|
        ensures Coord(r, j) in Positions(head) + Positions(rest) <==> NpcNear(g, Coord(r, j), b)
      {
        if j > c {
          assert Coord(r, j) !in Positions(head);
          assert Coord(r, j) in Positions(rest) <==> NpcNear(g, Coord(r, j), b);
        } else {
          assert Coord(r, j) == p;
        }
      }
    }
  }

  lemma {:induction false} NpcsFromComplete(g: seq<seq<GridCell>>, r: nat, b: Coord, d: TickDraws, ui: nat)
    requires IsRect(g) && r <= |g|
    ensures forall p :: InGrid(g, p) && p.row >= r ==> (p in Positions(NpcsFrom(g, r, b, d, ui)) <==> NpcNear(g, p, b))
    decreases |g| - r
  {
    if r < |g| {
      NpcsInRowComplete(g, r, 0, b, d, ui);
      NpcsFromComplete(g, r + 1, b, d, ui);
      NpcsInRowSound(g, r, 0, b, d, ui);
      NpcsFromSound(g, r + 1, b, d, ui);
      var row, rest := NpcsInRow(g, r, 0, b, d, ui), NpcsFrom(g, r + 1, b, d, ui);
      PositionsAppend(row, rest);
      forall p | InGrid(g, p) && p.row >= r
        ensures p in Positions(row + rest) <==> NpcNear(g, p, b)
      {
        if p.row == r {
          assert p == Coord(r, p.col);
          assert forall k :: 0 <= k < |rest| ==> Positions(rest)[k] != p;
        } else {
          assert forall k :: 0 <= k < |row| ==> Positions(row)[k] != p;
        }
      }
    }
  }

  /** `p` comes before `q` in the row-major order of the grid scans. */
  predicate Before(p: Coord, q: Coord) {
    p.row < q.row || (p.row == q.row && p.col < q.col)
  }

  /** The positions strictly increase in row-major order, so none repeats. */
  predicate RowMajor(ns: seq<PlacedNpc>) {
    forall i, j :: 0 <= i < j < |ns| ==> Before(ns[i].position, ns[j].position)
  }

  lemma ConcatRowMajor(xs: seq<PlacedNpc>, ys: seq<PlacedNpc>)
    requires RowMajor(xs) && RowMajor(ys)
    requires forall i, j :: 0 <= i < |xs| && 0 <= j < |ys| ==> Before(xs[i].position, ys[j].position)
    ensures RowMajor(xs + ys)
  {
    forall i, j | 0 <= i < j < |xs + ys|
      ensures Before((xs + ys)[i].position, (xs + ys)[j].position)
    {
      if j < |xs| {
        assert (xs + ys)[i] == xs[i] && (xs + ys)[j] == xs[j];
      } else if i < |xs| {
        assert (xs + ys)[i] == xs[i] && (xs + ys)[j] == ys[j - |xs|];
      } else {
        assert (xs + ys)[i] == ys[i - |xs|] && (xs + ys)[j] == ys[j - |xs|];
      }
    }
  }

  /** One row of the scan reports NPCs from left to right. */
  lemma {:induction false} NpcsInRowOrdered(g: seq<seq<GridCell>>, r: nat, c: nat, b: Coord, d: TickDraws, ui: nat)
    requires IsRect(g) && r < |g| && c <= |g[0]|
    ensures RowMajor(NpcsInRow(g, r, c, b, d, ui))
    decreases |g[0]| - c
  {
    if c < |g[0]| {
      NpcsInRowOrdered(g, r, c + 1, b, d, ui);
      NpcsInRowSound(g, r, c + 1, b, d, ui);
      var p := Coord(r, c);
      var head := if NpcNear(g, p, b) then [NearbyNpc(g[r][c], p, d, ui)] else [];
      var rest := NpcsInRow(g, r, c + 1, b, d, ui);
      assert NpcsInRow(g, r, c, b, d, ui) == head + rest;
      assert forall i :: 0 <= i < |head| ==> head[i].position == p;
      ConcatRowMajor(head, rest);
    }
  }

  /** The whole scan reports NPCs in row-major order. */
  lemma {:induction false} NpcsFromOrdered(g: seq<seq<GridCell>>, r: nat, b: Coord, d: TickDraws, ui: nat)
    requires IsRect(g) && r <= |g|
    ensures RowMajor(NpcsFrom(g, r, b, d, ui))
    decreases |g| - r
  {
    if r < |g| {
      NpcsInRowOrdered(g, r, 0, b, d, ui);
      NpcsFromOrdered(g, r + 1, b, d, ui);
      NpcsInRowSound(g, r, 0, b, d, ui);
      NpcsFromSound(g, r + 1, b, d, ui);
      ConcatRowMajor(NpcsInRow(g, r, 0, b, d, ui), NpcsFrom(g, r + 1, b, d, ui));
    }
  }

  /** The set of cells a list of NPCs stands on. */
  function PositionSet(ns: seq<PlacedNpc>): set<Coord> {
    set k | 0 <= k < |ns| :: ns[k].position
  }

  /** A list whose positions never repeat stands on as many cells as it has entries. */
  lemma {:induction false} RowMajorCount(ns: seq<PlacedNpc>)
    requires RowMajor(ns)
    ensures |PositionSet(ns)| == |ns|
    decreases |ns|
  {
    if ns != [] {
      var init := ns[..|ns| - 1];
      assert RowMajor(init) by {
        forall i, j | 0 <= i < j < |init|
          ensures Before(init[i].position, init[j].position)
        {
          assert init[i] == ns[i] && init[j] == ns[j];
        }
      }
      RowMajorCount(init);
      var last := ns[|ns| - 1].position;
      assert PositionSet(ns) == PositionSet(init) + {last} by {
        forall q | q in PositionSet(ns)
          ensures q in PositionSet(init) + {last}
        {
          var k :| 0 <= k < |ns| && ns[k].position == q;
          if k < |ns| - 1 {
            assert init[k] == ns[k];
          }
        }
        forall q | q in PositionSet(init)
          ensures q in PositionSet(ns)
        {
          var k :| 0 <= k < |init| && init[k].position == q;
          assert ns[k] == init[k];
        }
      }
      assert last !in PositionSet(init) by {
        forall k | 0 <= k < |init|
          ensures init[k].position != last
        {
          assert init[k] == ns[k];
          assert Before(ns[k].position, ns[|ns| - 1].position);
        }
      }
    }
  }

  /** The NPC cells adjacent to the building `b`. */
  function AdjacentNpcCells(g: seq<seq<GridCell>>, b: Coord): set<Coord> {
    set r, c | 0 <= r < |g| && 0 <= c < |g[r]| && NpcNear(g, Coord(r, c), b) :: Coord(r, c)
  }

  /** Bonus values as the scan assigns them. */
  predicate FixedBonuses(npcs: seq<PlacedNpc>) {
    forall k :: 0 <= k < |npcs| ==> npcs[k].bonusMultiplier == 0.2 && 1 <= npcs[k].bonusPrice <= 5
  }

  /** `getNPCsNearBuilding` reports exactly the NPC cells adjacent to the
      building, each with multiplier 0.2 and a bonus price in 1..5. */
  lemma NpcsNearBuildingExact(g: seq<seq<GridCell>>, b: Coord, d: TickDraws, ui: nat)
    requires IsRect(g) && ValidTickDraws(d)
    ensures forall k :: 0 <= k < |NpcsFrom(g, 0, b, d, ui)| ==> InGrid(g, NpcsFrom(g, 0, b, d, ui)[k].position)
    ensures FixedBonuses(NpcsFrom(g, 0, b, d, ui))
    ensures forall p :: InGrid(g, p) ==> (p in Positions(NpcsFrom(g, 0, b, d, ui)) <==> NpcNear(g, p, b))
    ensures RowMajor(NpcsFrom(g, 0, b, d, ui))
    ensures PositionSet(NpcsFrom(g, 0, b, d, ui)) == AdjacentNpcCells(g, b)
    ensures |NpcsFrom(g, 0, b, d, ui)| == |AdjacentNpcCells(g, b)|
  {
    var ns := NpcsFrom(g, 0, b, d, ui);
    NpcsFromSound(g, 0, b, d, ui);
    NpcsFromComplete(g, 0, b, d, ui);
    NpcsFromOrdered(g, 0, b, d, ui);
    PositionSetExact(g, b, d, ui, ns);
    RowMajorCount(ns);
  }

  /** A list of reported NPCs that holds every adjacent NPC cell stands on
      exactly those cells. */
  lemma PositionSetExact(g: seq<seq<GridCell>>, b: Coord, d: TickDraws, ui: nat, ns: seq<PlacedNpc>)
    requires AllReported(g, ns, b, d, ui)
    requires forall p :: InGrid(g, p) ==> (p in Positions(ns) <==> NpcNear(g, p, b))
    ensures PositionSet(ns) == AdjacentNpcCells(g, b)
  {
    forall q | q in PositionSet(ns)
      ensures q in AdjacentNpcCells(g, b)
    {
      var k :| 0 <= k < |ns| && ns[k].position == q;
      assert ReportedNpc(g, ns[k], b, d, ui);
      assert q == Coord(q.row, q.col);
    }
    forall q | q in AdjacentNpcCells(g, b)
      ensures q in PositionSet(ns)
    {
      assert InGrid(g, q) && NpcNear(g, q, b);
      var k :| 0 <= k < |ns| && Positions(ns)[k] == q;
      assert ns[k].position == q;
    }
  }

  /** `getNPCsNearBuilding`: the nested loops over the grid. */
  method GetNPCsNearBuilding(g: seq<seq<GridCell>>, b: Coord, d: TickDraws, ui: nat) returns (nearbyNPCs: seq<PlacedNpc>)
    requires IsRect(g)
    ensures nearbyNPCs == NpcsFrom(g, 0, b, d, ui)
  {
    nearbyNPCs := [];
    var row := 0;
    while row < |g|
      invariant row <= |g|
      invariant nearbyNPCs + NpcsFrom(g, row, b, d, ui) == NpcsFrom(g, 0, b, d, ui)
    {
      ghost var rowStart := nearbyNPCs;
      var col := 0;
      while col < |g[0]|
        invariant col <= |g[0]|
        invariant nearbyNPCs + NpcsInRow(g, row, col, b, d, ui) == rowStart + NpcsInRow(g, row, 0, b, d, ui)
      {
        var cell := g[row][col];
        ScanCellStep(g, row, col, b, d, ui, nearbyNPCs);
        if IsNpcCell(cell) {
          if IsAdjacent(Coord(row, col), b) {
            nearbyNPCs := nearbyNPCs + [NearbyNpc(cell, Coord(row, col), d, ui)];
          }
        }
        col := col + 1;
      }
      ScanRowStep(g, row, b, d, ui, rowStart);
      row := row + 1;
    }
  }

  /** One cell of the scan: a reported NPC is appended, then the rest of the row follows. */
  lemma ScanCellStep(g: seq<seq<GridCell>>, row: nat, col: nat, b: Coord, d: TickDraws, ui: nat, acc: seq<PlacedNpc>)
    requires IsRect(g) && row < |g| && col < |g[0]|
    ensures var p := Coord(row, col);
      (acc + (if NpcNear(g, p, b) then [NearbyNpc(g[row][col], p, d, ui)] else [])) + NpcsInRow(g, row, col + 1, b, d, ui)
      == acc + NpcsInRow(g, row, col, b, d, ui)
  {
  }

  /** One row of the scan: the row's NPCs, then the later rows. */
  lemma ScanRowStep(g: seq<seq<GridCell>>, row: nat, b: Coord, d: TickDraws, ui: nat, acc: seq<PlacedNpc>)
    requires IsRect(g) && row < |g|
    ensures (acc + NpcsInRow(g, row, 0, b, d, ui)) + NpcsFrom(g, row + 1, b, d, ui) == acc + NpcsFrom(g, row, b, d, ui)
  {
  }

  // ---------------------------------------------------------------------------
  // The amount of one purchase

  /** `nearbyNPCs.reduce((total, npc) => total + npc.bonusMultiplier, acc)`. */
  function ReduceMultiplier(npcs: seq<PlacedNpc>, acc: real): real
    decreases |npcs|
  {
    if npcs == [] then acc else ReduceMultiplier(npcs[1..], acc + npcs[0].bonusMultiplier)
  }

  /** `nearbyNPCs.reduce((total, npc) => total + npc.bonusPrice, acc)`. */
  function ReducePrice(npcs: seq<PlacedNpc>, acc: int): int
    decreases |npcs|
  {
    if npcs == [] then acc else ReducePrice(npcs[1..], acc + npcs[0].bonusPrice)
  }

  /** `building.baseConsumption || 5`: missing or zero means 5. */
  function BaseConsumptionOf(item: GameItem): int {
    match item.baseConsumption
    case Some(v) => if v != 0 then v else 5
    case None => 5
  }

  function WealthMultiplier(kind: UserType): int {
    if kind == Wealthy then 2 else 1
  }

  /** `isSpecialPurchase ? Math.floor(Math.random() * 3) + 2 : 1`. */
  function SpecialMultiplier(isSpecial: bool, x: real): (m: int)
    ensures !isSpecial ==> m == 1
    ensures isSpecial && 0.0 <= x < 1.0 ==> 2 <= m <= 4
  {
    if isSpecial then (x * 3.0).Floor + 2 else 1
  }

  /** floor((base x multiplier + bonus price) x wealth x special). */
  function PurchaseFormula(base: real, multiplier: real, bonusPrice: real, wealth: real, special: real): int {
    ((base * multiplier + bonusPrice) * wealth * special).Floor
  }

  /** The amount of one purchase, with the NPCs' bonuses added up. */
  function SpendAmount(base: int, npcs: seq<PlacedNpc>, kind: UserType, special: int): int {
    PurchaseFormula(base as real, ReduceMultiplier(npcs, 1.0), ReducePrice(npcs, 0) as real,
                    WealthMultiplier(kind) as real, special as real)
  }

  lemma {:induction false} ReduceWithFixedMultiplier(npcs: seq<PlacedNpc>, acc: real, accPrice: int)
    requires FixedBonuses(npcs)
    ensures ReduceMultiplier(npcs, acc) == acc + 0.2 * |npcs| as real
    ensures accPrice + |npcs| <= ReducePrice(npcs, accPrice) <= accPrice + 5 * |npcs|
    decreases |npcs|
  {
    if npcs != [] {
      ReduceWithFixedMultiplier(npcs[1..], acc + npcs[0].bonusMultiplier, accPrice + npcs[0].bonusPrice);
    }
  }

  /** With k NPCs next to the building the amount is
      floor((base x (1 + 0.2 k) + sum of bonus prices) x w x s), the bonus
      prices adding up to between k and 5k. */
  lemma AmountWithFixedBonuses(base: int, npcs: seq<PlacedNpc>, kind: UserType, special: int)
    requires FixedBonuses(npcs)
    ensures |npcs| <= ReducePrice(npcs, 0) <= 5 * |npcs|
    ensures SpendAmount(base, npcs, kind, special)
         == PurchaseFormula(base as real, 1.0 + 0.2 * |npcs| as real, ReducePrice(npcs, 0) as real,
                            WealthMultiplier(kind) as real, special as real)
  {
    ReduceWithFixedMultiplier(npcs, 1.0, 0);
  }

  /** The NPCs the scan reports all carry the fixed bonuses. */
  lemma ScanBonuses(g: seq<seq<GridCell>>, b: Coord, d: TickDraws, ui: nat)
    requires IsRect(g) && ValidTickDraws(d)
    ensures FixedBonuses(NpcsFrom(g, 0, b, d, ui))
  {
    NpcsFromSound(g, 0, b, d, ui);
  }

  /** A purchase at building `b` is
      floor((base x (1 + 0.2 k) + sum of bonus prices) x w x s) with k the
      number of NPC cells adjacent to `b`, the bonus prices adding up to
      between k and 5k. */
  lemma AmountAtBuilding(g: seq<seq<GridCell>>, b: Coord, d: TickDraws, ui: nat, base: int, kind: UserType, special: int)
    requires IsRect(g) && ValidTickDraws(d)
    ensures var npcs, k := NpcsFrom(g, 0, b, d, ui), |AdjacentNpcCells(g, b)|;
      && k <= ReducePrice(npcs, 0) <= 5 * k
      && SpendAmount(base, npcs, kind, special)
         == PurchaseFormula(base as real, 1.0 + 0.2 * k as real, ReducePrice(npcs, 0) as real,
                            WealthMultiplier(kind) as real, special as real)
  {
    var npcs := NpcsFrom(g, 0, b, d, ui);
    assert FixedBonuses(npcs) && |npcs| == |AdjacentNpcCells(g, b)| by {
      NpcsNearBuildingExact(g, b, d, ui);
    }
    AmountWithFixedBonuses(base, npcs, kind, special);
  }

  /** With a positive base and multipliers of at least 1, every purchase brings
      in at least the base consumption. */
  lemma AmountAtLeastBase(base: int, npcs: seq<PlacedNpc>, kind: UserType, special: int)
    requires base >= 1 && special >= 1 && FixedBonuses(npcs)
    ensures SpendAmount(base, npcs, kind, special) >= base
  {
    ReduceWithFixedMultiplier(npcs, 1.0, 0);
    ScaledAtLeast(base as real, ReduceMultiplier(npcs, 1.0), ReducePrice(npcs, 0) as real,
                  WealthMultiplier(kind) as real, special as real);
  }

  lemma ScaledAtLeast(base: real, m: real, p: real, w: real, s: real)
    requires base >= 1.0 && m >= 1.0 && p >= 0.0 && w >= 1.0 && s >= 1.0
    ensures (base * m + p) * w * s >= base
  {
    var inner := base * m + p;
    assert base * (m - 1.0) >= 0.0;
    assert inner * (w - 1.0) >= 0.0;
    assert inner * w * (s - 1.0) >= 0.0;
  }

  /** A normal visitor next to a building of base consumption 8 with no NPC
      around spends exactly 8. */
  lemma ScenarioPlainPurchase()
    ensures SpendAmount(8, [], Normal, 1) == 8
  {
  }

  /** A wealthy visitor's special 2x purchase at a base-8 building next to one
      NPC whose bonus price came out as 4: the scan's fixed 0.2 multiplier gives
      floor((8 x 1.2 + 4) x 2 x 2) = floor(54.4) = 54. */
  lemma ScenarioWealthySpecialPurchase(npc: GameItem)
    ensures SpendAmount(8, [PlacedNpc(npc, Coord(0, 0), 0.2, 4)], Wealthy, 2) == 54
  {
    var ns := [PlacedNpc(npc, Coord(0, 0), 0.2, 4)];
    assert ReduceMultiplier(ns, 1.0) == 1.2 by {
      assert ns[1..] == [];
    }
    assert ReducePrice(ns, 0) == 4 by {
      assert ns[1..] == [];
    }
    assert (8.0 * 1.2 + 4.0) * 2.0 * 2.0 == 54.4;
  }

  // ---------------------------------------------------------------------------
  // One visitor in one tick

  /** `user.lastConsumeTime || 0`. */
  function LastTime(u: RoadUser): int {
    match u.lastConsumeTime
    case Some(t) => t
    case None => 0
  }

  predicate OnCooldown(u: RoadUser, now: int) {
    now - LastTime(u) < u.consumeCooldown * 1000
  }

  /** The building at `p` would take this visitor's money: it is adjacent to the
      visitor's cell, it is not the building the visitor last spent at, and the
      visitor's roll for it is above 0.3. */
  predicate Candidate(g: seq<seq<GridCell>>, userCell: Coord, u: RoadUser, ui: nat, d: TickDraws, p: Coord)
    requires InGrid(g, p)
  {
    && IsBuildingCell(g[p.row][p.col])
    && IsAdjacent(userCell, p)
    && u.lastConsumedBuilding != Some(g[p.row][p.col].content.value.id)
    && d.spend(ui, p) > 0.3
  }

  function FirstInRow(g: seq<seq<GridCell>>, r: nat, c: nat, userCell: Coord, u: RoadUser, ui: nat, d: TickDraws): Option<Coord>
    requires IsRect(g) && r < |g| && c <= |g[0]|
    decreases |g[0]| - c
  {
    if c == |g[0]| then None
    else if Candidate(g, userCell, u, ui, d, Coord(r, c)) then Some(Coord(r, c))
    else FirstInRow(g, r, c + 1, userCell, u, ui, d)
  }

  /** The first candidate at or after cell (r, c) in row-major order. */
  function FirstFromCell(g: seq<seq<GridCell>>, r: nat, c: nat, userCell: Coord, u: RoadUser, ui: nat, d: TickDraws): Option<Coord>
    requires IsRect(g) && r < |g| && c <= |g[0]|
    decreases |g| - r, 0
  {
    match FirstInRow(g, r, c, userCell, u, ui, d)
    case Some(p) => Some(p)
    case None => FirstFrom(g, r + 1, userCell, u, ui, d)
  }

  /** The first candidate in rows r and later, in row-major order. */
  function FirstFrom(g: seq<seq<GridCell>>, r: nat, userCell: Coord, u: RoadUser, ui: nat, d: TickDraws): Option<Coord>
    requires IsRect(g) && r <= |g|
    decreases |g| - r, 1
  {
    if r == |g| then None else FirstFromCell(g, r, 0, userCell, u, ui, d)
  }

  lemma {:induction false} FirstInRowSpec(g: seq<seq<GridCell>>, r: nat, c: nat, userCell: Coord, u: RoadUser, ui: nat, d: TickDraws)
    requires IsRect(g) && r < |g| && c <= |g[0]|
    ensures match FirstInRow(g, r, c, userCell, u, ui, d)
      case Some(p) =>
        p.row == r && c <= p.col < |g[0]| && Candidate(g, userCell, u, ui, d, p)
        && forall j :: c <= j < p.col ==> !Candidate(g, userCell, u, ui, d, Coord(r, j))
      case None => forall j :: c <= j < |g[0]| ==> !Candidate(g, userCell, u, ui, d, Coord(r, j))
    decreases |g[0]| - c
  {
    if c < |g[0]| && !Candidate(g, userCell, u, ui, d, Coord(r, c)) {
      FirstInRowSpec(g, r, c + 1, userCell, u, ui, d);
    }
  }

  lemma {:induction false} FirstFromSpec(g: seq<seq<GridCell>>, r: nat, userCell: Coord, u: RoadUser, ui: nat, d: TickDraws)
    requires IsRect(g) && r <= |g|
    ensures match FirstFrom(g, r, userCell, u, ui, d)
      case Some(p) =>
        InGrid(g, p) && p.row >= r && Candidate(g, userCell, u, ui, d, p)
        && forall q :: InGrid(g, q) && q.row >= r && Before(q, p) ==> !Candidate(g, userCell, u, ui, d, q)
      case None => forall q :: InGrid(g, q) && q.row >= r ==> !Candidate(g, userCell, u, ui, d, q)
    decreases |g| - r
  {
    if r < |g| {
      FirstInRowSpec(g, r, 0, userCell, u, ui, d);
      FirstFromSpec(g, r + 1, userCell, u, ui, d);
      match FirstInRow(g, r, 0, userCell, u, ui, d)
      case Some(p) =>
        forall q | InGrid(g, q) && q.row == r && Before(q, p)
          ensures !Candidate(g, userCell, u, ui, d, q)
        {
          assert q == Coord(r, q.col);
        }
      case None =>
        forall q | InGrid(g, q) && q.row == r
          ensures !Candidate(g, userCell, u, ui, d, q)
        {
          assert q == Coord(r, q.col);
        }
    }
  }

  /** The scan picks the first candidate building in row-major order, and
      finds none exactly when no building is a candidate. */
  lemma FirstCandidateWins(g: seq<seq<GridCell>>, userCell: Coord, u: RoadUser, ui: nat, d: TickDraws)
    requires IsRect(g)
    ensures match FirstFrom(g, 0, userCell, u, ui, d)
      case Some(p) =>
        InGrid(g, p) && Candidate(g, userCell, u, ui, d, p)
        && forall q :: InGrid(g, q) && Before(q, p) ==> !Candidate(g, userCell, u, ui, d, q)
      case None => forall q :: InGrid(g, q) ==> !Candidate(g, userCell, u, ui, d, q)
  {
    FirstFromSpec(g, 0, userCell, u, ui, d);
  }

  /** The event of visitor `ui` buying at the building at `p`. */
  function SpendAt(g: seq<seq<GridCell>>, p: Coord, u: RoadUser, ui: nat, now: int, d: TickDraws): ConsumptionEvent
    requires IsRect(g) && InGrid(g, p) && IsBuildingCell(g[p.row][p.col])
  {
    var building := g[p.row][p.col].content.value;
    var npcs := NpcsFrom(g, 0, p, d, ui);
    var isSpecialPurchase := u.kind == Wealthy && d.special(ui) > 0.9;
    var specialMultiplier := SpecialMultiplier(isSpecialPurchase, d.specialFactor(ui));
    ConsumptionEvent(building.id, building.name, SpendAmount(BaseConsumptionOf(building), npcs, u.kind, specialMultiplier),
                     p, now, isSpecialPurchase)
  }

  /** The visitor after spending: remembers the building and the time; a wealthy
      visitor keeps max(0, coins - amount/2), a normal one keeps nothing. */
  function AfterSpend(u: RoadUser, e: ConsumptionEvent): RoadUser {
    u.(lastConsumedBuilding := Some(e.buildingId),
       lastConsumeTime := Some(e.timestamp),
       coins := if u.kind == Wealthy then Max(0.0, u.coins - e.amount as real / 2.0) else 0.0)
  }

  /** One visitor's part of a consumption tick: the updated visitor and the
      purchase, if any. */
  function UserTick(g: seq<seq<GridCell>>, path: seq<Coord>, u: RoadUser, ui: nat, now: int, d: TickDraws): (RoadUser, Option<ConsumptionEvent>)
    requires IsRect(g) && u.position >= 0.0
  {
    if OnCooldown(u, now) then (u, None)
    else
      var idx := u.position.Floor;
      if idx >= |path| then (u, None)
      else
        FirstCandidateWins(g, path[idx], u, ui, d);
        match FirstFrom(g, 0, path[idx], u, ui, d)
        case None => (u, None)
        case Some(p) =>
          var e := SpendAt(g, p, u, ui, now, d);
          (AfterSpend(u, e), Some(e))
  }

  /** The per-visitor function inside `setUsers(prev => prev.map(...))`: the
      cooldown and position guards, then the row-major scan for an adjacent
      building, returning as soon as one takes the visitor's money. */
  method ConsumeForUser(g: seq<seq<GridCell>>, path: seq<Coord>, u: RoadUser, ui: nat, now: int, d: TickDraws)
    returns (u': RoadUser, spent: Option<ConsumptionEvent>)
    requires IsRect(g) && u.position >= 0.0
    ensures (u', spent) == UserTick(g, path, u, ui, now, d)
  {
    u', spent := u, None;
    var userLastConsumeTime := LastTime(u);
    if now - userLastConsumeTime < u.consumeCooldown * 1000 {
      return;
    }
    var userPosition := u.position.Floor;
    if userPosition >= |path| {
      return;
    }
    var userCell := path[userPosition];
    var row := 0;
    while row < |g|
      invariant row <= |g|
      invariant FirstFrom(g, 0, userCell, u, ui, d) == FirstFrom(g, row, userCell, u, ui, d)
    {
      var col := 0;
      while col < |g[0]|
        invariant col <= |g[0]|
        invariant FirstFrom(g, 0, userCell, u, ui, d) == FirstFromCell(g, row, col, userCell, u, ui, d)
      {
        var cell := g[row][col];
        if cell.content.Some? && cell.content.value.kind == Building {
          if IsAdjacent(userCell, Coord(row, col)) {
            if u.lastConsumedBuilding == Some(cell.content.value.id) {
              col := col + 1;
              continue;
            }
            var consumeChance := d.spend(ui, Coord(row, col));
            var willConsume := consumeChance > 0.3;
            if willConsume {
              var building := cell.content.value;
              var baseConsumption := BaseConsumptionOf(building);
              var nearbyNPCs := GetNPCsNearBuilding(g, Coord(row, col), d, ui);
              var isSpecialPurchase := u.kind == Wealthy && d.special(ui) > 0.9;
              var specialMultiplier := SpecialMultiplier(isSpecialPurchase, d.specialFactor(ui));
              var consumptionAmount := SpendAmount(baseConsumption, nearbyNPCs, u.kind, specialMultiplier);
              var e := ConsumptionEvent(building.id, building.name, consumptionAmount, Coord(row, col), now, isSpecialPurchase);
              u', spent := AfterSpend(u, e), Some(e);
              return;
            }
          }
        }
        col := col + 1;
      }
      row := row + 1;
    }
  }

  /** A visitor on cooldown neither spends nor changes. */
  lemma CooldownBlocksSpending(g: seq<seq<GridCell>>, path: seq<Coord>, u: RoadUser, ui: nat, now: int, d: TickDraws)
    requires IsRect(g) && u.position >= 0.0 && OnCooldown(u, now)
    ensures UserTick(g, path, u, ui, now, d) == (u, None)
  {
  }

  /** With the 5-second cooldown a visitor is cooling down exactly while less
      than 5000 ms have passed since its last purchase, or, before its first
      purchase, while `now` is below 5000. */
  lemma CooldownBoundary(u: RoadUser, now: int)
    requires u.consumeCooldown == 5
    ensures forall t :: u.lastConsumeTime == Some(t) ==> (OnCooldown(u, now) <==> now - t < 5000)
    ensures u.lastConsumeTime == None ==> (OnCooldown(u, now) <==> now < 5000)
  {
  }

  /** A purchase happens at the first candidate building: an adjacent building
      the visitor did not spend at last, whose roll passed, with no earlier
      candidate in row-major order; the visitor then remembers that building
      and the time, and nothing else about the visitor changes but the coins. */
  lemma UserTickSpends(g: seq<seq<GridCell>>, path: seq<Coord>, u: RoadUser, ui: nat, now: int, d: TickDraws)
    requires IsRect(g) && u.position >= 0.0
    ensures var (v, spent) := UserTick(g, path, u, ui, now, d);
      && (spent.None? ==> v == u)
      && (spent.Some? ==>
            var e := spent.value;
            var cell := path[u.position.Floor];
            && !OnCooldown(u, now) && u.position.Floor < |path|
            && InGrid(g, e.position) && IsBuildingCell(g[e.position.row][e.position.col])
            && e.buildingId == g[e.position.row][e.position.col].content.value.id
            && IsAdjacent(cell, e.position)
            && u.lastConsumedBuilding != Some(e.buildingId)
            && d.spend(ui, e.position) > 0.3
            && (forall q :: InGrid(g, q) && Before(q, e.position) ==> !Candidate(g, cell, u, ui, d, q))
            && e.timestamp == now
            && v == AfterSpend(u, e)
            && v.lastConsumedBuilding == Some(e.buildingId) && v.lastConsumeTime == Some(now)
            && (u.kind == Normal ==> v.coins == 0.0)
            && (u.kind == Wealthy ==> v.coins == Max(0.0, u.coins - e.amount as real / 2.0)))
  {
    if !OnCooldown(u, now) && u.position.Floor < |path| {
      FirstCandidateWins(g, path[u.position.Floor], u, ui, d);
    }
  }

  /** A tick only touches a visitor's spending record and coins, and never
      leaves a visitor with negative coins. */
  lemma UserTickKeepsMotion(g: seq<seq<GridCell>>, path: seq<Coord>, u: RoadUser, ui: nat, now: int, d: TickDraws)
    requires IsRect(g) && u.position >= 0.0
    ensures var v := UserTick(g, path, u, ui, now, d).0;
      && v.id == u.id && v.kind == u.kind && v.position == u.position && v.speed == u.speed
      && v.consumeCooldown == u.consumeCooldown
      && (u.coins >= 0.0 ==> v.coins >= 0.0)
  {
  }

  /** A visitor that is off cooldown and stands next to no eligible building
      (or loses every roll) does not spend. */
  lemma NoCandidateNoSpend(g: seq<seq<GridCell>>, path: seq<Coord>, u: RoadUser, ui: nat, now: int, d: TickDraws)
    requires IsRect(g) && 0.0 <= u.position && u.position.Floor < |path|
    requires forall q :: InGrid(g, q) ==> !Candidate(g, path[u.position.Floor], u, ui, d, q)
    ensures UserTick(g, path, u, ui, now, d).1 == None
  {
    FirstCandidateWins(g, path[u.position.Floor], u, ui, d);
  }

  // ---------------------------------------------------------------------------
  // The whole tick

  predicate AllOnRoad(users: seq<RoadUser>, len: nat) {
    forall i :: 0 <= i < |users| ==> UserOnRoad(users[i], len)
  }

  predicate NonNegativePositions(users: seq<RoadUser>) {
    forall i :: 0 <= i < |users| ==> users[i].position >= 0.0
  }

  /** Every building on the grid consumes at least `least` per purchase before bonuses. */
  ghost predicate BuildingsConsume(g: seq<seq<GridCell>>, least: int) {
    forall p :: InGrid(g, p) && IsBuildingCell(g[p.row][p.col]) ==> BaseConsumptionOf(g[p.row][p.col].content.value) >= least
  }

  function TickUsers(g: seq<seq<GridCell>>, path: seq<Coord>, users: seq<RoadUser>, now: int, d: TickDraws): (r: seq<RoadUser>)
    requires IsRect(g) && NonNegativePositions(users)
    ensures |r| == |users|
    ensures forall i :: 0 <= i < |users| ==> r[i] == UserTick(g, path, users[i], i, now, d).0
  {
    seq(|users|, i requires 0 <= i < |users| => UserTick(g, path, users[i], i, now, d).0)
  }

  /** The purchases of the first n visitors, in visitor order. */
  function TickEvents(g: seq<seq<GridCell>>, path: seq<Coord>, users: seq<RoadUser>, now: int, d: TickDraws, n: nat): seq<ConsumptionEvent>
    requires IsRect(g) && NonNegativePositions(users) && n <= |users|
  {
    if n == 0 then []
    else
      var spent := UserTick(g, path, users[n - 1], n - 1, now, d).1;
      TickEvents(g, path, users, now, d, n - 1) + (if spent.Some? then [spent.value] else [])
  }

  function SumAmounts(events: seq<ConsumptionEvent>): int {
    if events == [] then 0 else SumAmounts(events[..|events| - 1]) + events[|events| - 1].amount
  }

  /** `setActiveConsumptions(prev => ({...prev, [row-col]: ...}))` for each purchase in turn. */
  function ApplyActive(m: map<Coord, ActiveConsumption>, events: seq<ConsumptionEvent>): map<Coord, ActiveConsumption> {
    if events == [] then m
    else
      var e := events[|events| - 1];
      ApplyActive(m, events[..|events| - 1])[e.position := ActiveConsumption(e.amount, e.timestamp, e.isSpecial)]
  }

  /** `combined.slice(-10)`. */
  function LastN(s: seq<ConsumptionEvent>, n: nat): seq<ConsumptionEvent> {
    if |s| <= n then s else s[|s| - n..]
  }

  /** `Math.floor(Math.random() * users.length) + 1`. */
  function BaseIncome(x: real, n: nat): (income: int)
    requires 0.0 <= x < 1.0
    ensures 1 <= income <= if n == 0 then 1 else n
  {
    assert x * (n as real) < n as real || n == 0 by {
      if n > 0 {
        assert (1.0 - x) * (n as real) > 0.0;
      }
    }
    (x * n as real).Floor + 1
  }

  /** The largest base income, as many coins as there are visitors, is reached
      by a draw of (n - 1) / n. */
  lemma BaseIncomeReachesCount(n: nat)
    requires n > 0
    ensures BaseIncome((n - 1) as real / n as real, n) == n
  {
    var x := (n - 1) as real / n as real;
    assert x * n as real == (n - 1) as real;
  }

  /** The state after one consumption tick: every visitor ticked, the
      highlights of this tick's purchases added, and either the earnings added
      with the log trimmed to the last 10 of old ++ new, or a base income added
      with the log unchanged. */
  predicate TickOutcome(
    g: seq<seq<GridCell>>, path: seq<Coord>, users: seq<RoadUser>, totalCoins: int,
    events: seq<ConsumptionEvent>, active: map<Coord, ActiveConsumption>, now: int, d: TickDraws,
    users': seq<RoadUser>, totalCoins': int, events': seq<ConsumptionEvent>, active': map<Coord, ActiveConsumption>)
    requires IsRect(g) && NonNegativePositions(users) && 0.0 <= d.baseIncome < 1.0
  {
    var newEvents := TickEvents(g, path, users, now, d, |users|);
    var totalEarned := SumAmounts(newEvents);
    && users' == TickUsers(g, path, users, now, d)
    && active' == ApplyActive(active, newEvents)
    && (totalEarned > 0 ==> totalCoins' == totalCoins + totalEarned && events' == LastN(events + newEvents, 10))
    && (totalEarned <= 0 ==> totalCoins' == totalCoins + BaseIncome(d.baseIncome, |users|) && events' == events)
  }

  /** What a tick does to the coins and the log: the total grows strictly,
      the log never exceeds 10 entries, and on a grid whose buildings all
      consume something a tick earns exactly when somebody bought something,
      by the sum of the purchases. Ticked visitors keep place, speed and
      cooldown. */
  lemma TickOutcomeFacts(
    g: seq<seq<GridCell>>, path: seq<Coord>, users: seq<RoadUser>, totalCoins: int,
    events: seq<ConsumptionEvent>, active: map<Coord, ActiveConsumption>, now: int, d: TickDraws,
    users': seq<RoadUser>, totalCoins': int, events': seq<ConsumptionEvent>, active': map<Coord, ActiveConsumption>)
    requires IsRect(g) && NonNegativePositions(users) && ValidTickDraws(d) && BuildingsConsume(g, 1) && |events| <= 10
    requires TickOutcome(g, path, users, totalCoins, events, active, now, d, users', totalCoins', events', active')
    ensures totalCoins' > totalCoins
    ensures |events'| <= 10
    ensures var newEvents := TickEvents(g, path, users, now, d, |users|);
      && (|newEvents| > 0 ==> totalCoins' == totalCoins + SumAmounts(newEvents) && events' == LastN(events + newEvents, 10))
      && (|newEvents| == 0 ==> totalCoins' == totalCoins + BaseIncome(d.baseIncome, |users|) && events' == events)
    ensures forall i :: 0 <= i < |users| ==>
      && users'[i].position == users[i].position && users'[i].speed == users[i].speed
      && users'[i].consumeCooldown == users[i].consumeCooldown
      && (users[i].coins >= 0.0 ==> users'[i].coins >= 0.0)
  {
    var newEvents := TickEvents(g, path, users, now, d, |users|);
    EarningsPositiveIffPurchase(g, path, users, now, d, |users|);
    EventLogIsSuffix(events + newEvents);
    TickKeepsUsers(g, path, users, now, d);
  }

  /** One visitor's turn in the tick: its purchase, if any, is appended to the
      purchases so far, added to the earnings and highlighted. */
  lemma TickStep(g: seq<seq<GridCell>>, path: seq<Coord>, users: seq<RoadUser>, now: int, d: TickDraws, i: nat,
                 spent: Option<ConsumptionEvent>, active: map<Coord, ActiveConsumption>,
                 act: map<Coord, ActiveConsumption>, evs: seq<ConsumptionEvent>)
    requires IsRect(g) && NonNegativePositions(users) && i < |users|
    requires spent == UserTick(g, path, users[i], i, now, d).1
    requires evs == TickEvents(g, path, users, now, d, i) && act == ApplyActive(active, evs)
    ensures spent.None? ==> TickEvents(g, path, users, now, d, i + 1) == evs
    ensures spent.Some? ==>
      var e := spent.value;
      && TickEvents(g, path, users, now, d, i + 1) == evs + [e]
      && SumAmounts(evs + [e]) == SumAmounts(evs) + e.amount
      && ApplyActive(active, evs + [e]) == act[e.position := ActiveConsumption(e.amount, e.timestamp, e.isSpecial)]
  {
    if spent.Some? {
      AppendEvent(active, evs, spent.value);
    }
  }

  /** Appending a purchase adds its amount to the sum and its highlight to the map. */
  lemma AppendEvent(active: map<Coord, ActiveConsumption>, evs: seq<ConsumptionEvent>, e: ConsumptionEvent)
    ensures SumAmounts(evs + [e]) == SumAmounts(evs) + e.amount
    ensures ApplyActive(active, evs + [e]) == ApplyActive(active, evs)[e.position := ActiveConsumption(e.amount, e.timestamp, e.isSpecial)]
  {
    assert (evs + [e])[..|evs|] == evs;
  }

  /**
   * `handleBuildingConsumption` while the business runs: every visitor in turn,
   * then the coin total and the event log. Earnings above zero are added and
   * the log keeps the last 10 of old ++ new; otherwise a base income is added
   * and the log is left alone.
   */
  method ConsumptionTick(
    g: seq<seq<GridCell>>, path: seq<Coord>, users: seq<RoadUser>, totalCoins: int,
    events: seq<ConsumptionEvent>, active: map<Coord, ActiveConsumption>, now: int, d: TickDraws)
    returns (users': seq<RoadUser>, totalCoins': int, events': seq<ConsumptionEvent>, active': map<Coord, ActiveConsumption>)
    requires IsRect(g) && NonNegativePositions(users) && ValidTickDraws(d)
    ensures TickOutcome(g, path, users, totalCoins, events, active, now, d, users', totalCoins', events', active')
  {
    var totalEarned := 0;
    var newConsumptionEvents: seq<ConsumptionEvent> := [];
    var newUsers: seq<RoadUser> := [];
    active' := active;
    var i := 0;
    while i < |users|
      invariant i <= |users| && |newUsers| == i
      invariant forall k :: 0 <= k < i ==> newUsers[k] == UserTick(g, path, users[k], k, now, d).0
      invariant newConsumptionEvents == TickEvents(g, path, users, now, d, i)
      invariant totalEarned == SumAmounts(newConsumptionEvents)
      invariant active' == ApplyActive(active, newConsumptionEvents)
    {
      var u, spent := ConsumeForUser(g, path, users[i], i, now, d);
      TickStep(g, path, users, now, d, i, spent, active, active', newConsumptionEvents);
      newUsers := newUsers + [u];
      if spent.Some? {
        var e := spent.value;
        totalEarned := totalEarned + e.amount;
        newConsumptionEvents := newConsumptionEvents + [e];
        active' := active'[e.position := ActiveConsumption(e.amount, e.timestamp, e.isSpecial)];
      }
      i := i + 1;
    }
    users' := newUsers;
    if totalEarned > 0 {
      totalCoins' := totalCoins + totalEarned;
      var combined := events + newConsumptionEvents;
      events' := LastN(combined, 10);
    } else {
      var baseIncome := BaseIncome(d.baseIncome, |users|);
      totalCoins' := totalCoins + baseIncome;
      events' := events;
    }
  }

  /** Each visitor contributes at most one purchase, so a tick has at most as
      many purchases as visitors, and every purchase is stamped `now`. */
  lemma {:induction false} AtMostOnePurchasePerUser(g: seq<seq<GridCell>>, path: seq<Coord>, users: seq<RoadUser>, now: int, d: TickDraws, n: nat)
    requires IsRect(g) && NonNegativePositions(users) && n <= |users|
    ensures var evs := TickEvents(g, path, users, now, d, n);
      |evs| <= n && forall k :: 0 <= k < |evs| ==> evs[k].timestamp == now
  {
    if n > 0 {
      AtMostOnePurchasePerUser(g, path, users, now, d, n - 1);
      UserTickSpends(g, path, users[n - 1], n - 1, now, d);
    }
  }

  /** A tick keeps every visitor where it was, with its speed and cooldown, and
      keeps coins non-negative. */
  lemma TickKeepsUsers(g: seq<seq<GridCell>>, path: seq<Coord>, users: seq<RoadUser>, now: int, d: TickDraws)
    requires IsRect(g) && NonNegativePositions(users)
    ensures var ticked := TickUsers(g, path, users, now, d);
      forall i :: 0 <= i < |users| ==>
        && ticked[i].position == users[i].position && ticked[i].speed == users[i].speed
        && ticked[i].consumeCooldown == users[i].consumeCooldown
        && (users[i].coins >= 0.0 ==> ticked[i].coins >= 0.0)
  {
    forall i | 0 <= i < |users| {
      UserTickKeepsMotion(g, path, users[i], i, now, d);
    }
  }

  /** The log after a tick is the 10-element (or shorter) suffix of old ++ new. */
  lemma EventLogIsSuffix(s: seq<ConsumptionEvent>)
    ensures |LastN(s, 10)| == if |s| <= 10 then |s| else 10
    ensures forall k :: 0 <= k < |LastN(s, 10)| ==> LastN(s, 10)[k] == s[|s| - |LastN(s, 10)| + k]
  {
  }

  /** The coin total of the running business grows strictly on every tick. */
  lemma TickIncreasesCoins(totalCoins: int, earned: int, x: real, n: nat)
    requires 0.0 <= x < 1.0
    ensures (if earned > 0 then totalCoins + earned else totalCoins + BaseIncome(x, n)) > totalCoins
  {
  }

  /** A purchase at a building of base consumption at least 1 is at least 1. */
  lemma PurchaseAtLeastOne(g: seq<seq<GridCell>>, path: seq<Coord>, u: RoadUser, ui: nat, now: int, d: TickDraws)
    requires IsRect(g) && u.position >= 0.0 && ValidTickDraws(d) && BuildingsConsume(g, 1)
    ensures var spent := UserTick(g, path, u, ui, now, d).1;
      spent.Some? ==> spent.value.amount >= 1
  {
    if !OnCooldown(u, now) && u.position.Floor < |path| {
      var cell := path[u.position.Floor];
      FirstCandidateWins(g, cell, u, ui, d);
      var found := FirstFrom(g, 0, cell, u, ui, d);
      if found.Some? {
        var p := found.value;
        var isSpecial := u.kind == Wealthy && d.special(ui) > 0.9;
        ScanBonuses(g, p, d, ui);
        AmountAtLeastBase(BaseConsumptionOf(g[p.row][p.col].content.value), NpcsFrom(g, 0, p, d, ui), u.kind,
                          SpecialMultiplier(isSpecial, d.specialFactor(ui)));
      }
    }
  }

  /** Every purchase of a tick is at least 1 when every building consumes at least 1. */
  lemma {:induction false} TickPurchasesAtLeastOne(g: seq<seq<GridCell>>, path: seq<Coord>, users: seq<RoadUser>, now: int, d: TickDraws, n: nat)
    requires IsRect(g) && NonNegativePositions(users) && n <= |users| && ValidTickDraws(d)
    requires BuildingsConsume(g, 1)
    ensures forall k :: 0 <= k < |TickEvents(g, path, users, now, d, n)| ==> TickEvents(g, path, users, now, d, n)[k].amount >= 1
  {
    if n > 0 {
      TickPurchasesAtLeastOne(g, path, users, now, d, n - 1);
      PurchaseAtLeastOne(g, path, users[n - 1], n - 1, now, d);
      var spent := UserTick(g, path, users[n - 1], n - 1, now, d).1;
      var prev, evs := TickEvents(g, path, users, now, d, n - 1), TickEvents(g, path, users, now, d, n);
      if spent.Some? {
        assert evs == prev + [spent.value];
        forall k | 0 <= k < |evs|
          ensures evs[k].amount >= 1
        {
          if k < |prev| {
            assert evs[k] == prev[k];
          }
        }
      } else {
        assert evs == prev;
      }
    }
  }

  /** A sum of amounts that are each at least 1 is at least their number. */
  lemma {:induction false} SumAtLeastCount(evs: seq<ConsumptionEvent>)
    requires forall k :: 0 <= k < |evs| ==> evs[k].amount >= 1
    ensures SumAmounts(evs) >= |evs|
    decreases |evs|
  {
    if evs != [] {
      SumAtLeastCount(evs[..|evs| - 1]);
    }
  }

  /** When every building on the grid has a positive base consumption, the tick
      earns something exactly when some visitor bought something. */
  lemma EarningsPositiveIffPurchase(g: seq<seq<GridCell>>, path: seq<Coord>, users: seq<RoadUser>, now: int, d: TickDraws, n: nat)
    requires IsRect(g) && NonNegativePositions(users) && n <= |users| && ValidTickDraws(d)
    requires BuildingsConsume(g, 1)
    ensures var evs := TickEvents(g, path, users, now, d, n);
      (forall k :: 0 <= k < |evs| ==> evs[k].amount >= 1) && (SumAmounts(evs) > 0 <==> |evs| > 0) && SumAmounts(evs) >= |evs|
  {
    TickPurchasesAtLeastOne(g, path, users, now, d, n);
    SumAtLeastCount(TickEvents(g, path, users, now, d, n));
  }
}
