/**
 * The road editor of the business page: the grid of cells, the empty grid, and
 * the click handler that extends the road by one adjacent, unused cell and
 * moves the start/end markers and the "valid next cell" highlights.
 *
 * The component receives the grid and the selection as properties and hands
 * the new values to setters, so the click handler is a method from the old
 * values to the new ones.
 */
module RoadBuilder {
  import opened Options
  import opened HexAdjacency

  datatype ItemType = Npc | Building

  /** An item placed in the garden. The economic fields are present only once the
      business page has looked them up for the item's id. */
  datatype GameItem = GameItem(
    id: string,
    name: string,
    kind: ItemType,
    baseConsumption: Option<int>,
    basePrice: Option<int>,
    bonusMultiplier: Option<real>,
    bonusPrice: Option<int>)

  datatype GridCell = GridCell(
    row: int,
    col: int,
    isRoad: bool,
    isStartPoint: bool,
    isEndPoint: bool,
    isValidNextCell: bool,
    content: Option<GameItem>)

  /** Every row is as long as the first one. */
  predicate IsRect(g: seq<seq<GridCell>>) {
    forall i :: 0 <= i < |g| ==> |g[i]| == |g[0]|
  }

  predicate InGrid(g: seq<seq<GridCell>>, p: Coord) {
    0 <= p.row < |g| && 0 <= p.col < |g[p.row]|
  }

  predicate SameShape(g: seq<seq<GridCell>>, h: seq<seq<GridCell>>) {
    |g| == |h| && forall i :: 0 <= i < |g| ==> |g[i]| == |h[i]|
  }

  /** Cell [r][c] records its own row r and column c. */
  predicate Positioned(g: seq<seq<GridCell>>) {
    forall i, j :: 0 <= i < |g| && 0 <= j < |g[i]| ==> g[i][j].row == i && g[i][j].col == j
  }

  function EmptyCell(row: int, col: int): GridCell {
    GridCell(row, col, false, false, false, false, None)
  }

  /** `createEmptyGrid(rows, cols)`: rows x cols cells, cell [r][c] at row r and
      column c, without content and with every flag false. */
  method CreateEmptyGrid(rows: nat, cols: nat) returns (grid: seq<seq<GridCell>>)
    ensures |grid| == rows
    ensures forall i :: 0 <= i < rows ==> |grid[i]| == cols
    ensures forall i, j :: 0 <= i < rows && 0 <= j < cols ==>
      grid[i][j].row == i && grid[i][j].col == j && grid[i][j].content == None
      && !grid[i][j].isRoad && !grid[i][j].isStartPoint && !grid[i][j].isEndPoint && !grid[i][j].isValidNextCell
  {
    grid := [];
    var row := 0;
    while row < rows
      invariant row <= rows && |grid| == row
      invariant forall i :: 0 <= i < row ==> |grid[i]| == cols
      invariant forall i, j :: 0 <= i < row && 0 <= j < cols ==> grid[i][j] == EmptyCell(i, j)
    {
      var currentRow: seq<GridCell> := [];
      var col := 0;
      while col < cols
        invariant col <= cols && |currentRow| == col
        invariant forall j :: 0 <= j < col ==> currentRow[j] == EmptyCell(row, j)
      {
        currentRow := currentRow + [EmptyCell(row, col)];
        col := col + 1;
      }
      grid := grid + [currentRow];
      row := row + 1;
    }
  }

  /** The road: every cell adjacent to the one before it, no cell twice. */
  predicate IsPath(sel: seq<Coord>) {
    && (forall k :: 0 < k < |sel| ==> IsAdjacent(sel[k], sel[k - 1]))
    && (forall k, l :: 0 <= k < l < |sel| ==> sel[k] != sel[l])
  }

  /** What the flags of the cell at `q` say about the selection `sel`. */
  predicate FlagsAgree(cell: GridCell, q: Coord, sel: seq<Coord>) {
    && (cell.isRoad <==> q in sel)
    && (cell.isStartPoint <==> |sel| > 0 && q == sel[0])
    && (cell.isEndPoint <==> |sel| >= 2 && q == sel[|sel| - 1])
    && (cell.isValidNextCell <==> |sel| > 0 && q !in sel && IsAdjacent(q, sel[|sel| - 1]))
  }

  /** The agreement between the grid's flags, the selected cells and the
      start/end points that every accepted click keeps. */
  predicate RoadInvariant(g: seq<seq<GridCell>>, sel: seq<Coord>, startPoint: Option<Coord>, endPoint: Option<Coord>) {
    && IsRect(g)
    && (forall k :: 0 <= k < |sel| ==> InGrid(g, sel[k]))
    && IsPath(sel)
    && (forall i, j :: 0 <= i < |g| && 0 <= j < |g[i]| ==> FlagsAgree(g[i][j], Coord(i, j), sel))
    && startPoint == (if |sel| > 0 then Some(sel[0]) else None)
    && endPoint == (if |sel| >= 2 then Some(sel[|sel| - 1]) else None)
  }

  /** The three ways `handleCellClick` can decline a click: not editing, not
      adjacent to the last selected cell, or already selected. */
  predicate Accepts(sel: seq<Coord>, isEditing: bool, p: Coord) {
    isEditing && (|sel| == 0 || IsAdjacent(p, sel[|sel| - 1])) && p !in sel
  }

  /** First nested loop of the click handler: clear every highlight. */
  method ClearValidNext(g0: seq<seq<GridCell>>) returns (g: seq<seq<GridCell>>)
    requires IsRect(g0)
    ensures SameShape(g, g0)
    ensures forall i, j :: 0 <= i < |g0| && 0 <= j < |g0[i]| ==> g[i][j] == g0[i][j].(isValidNextCell := false)
  {
    g := g0;
    var r := 0;
    while r < |g0|
      invariant r <= |g0| && SameShape(g, g0)
      invariant forall i, j :: 0 <= i < |g0| && 0 <= j < |g0[i]| ==>
        g[i][j] == if i < r then g0[i][j].(isValidNextCell := false) else g0[i][j]
    {
      var c := 0;
      while c < |g0[0]|
        invariant c <= |g0[0]| && SameShape(g, g0)
        invariant forall i, j :: 0 <= i < |g0| && 0 <= j < |g0[i]| ==>
          g[i][j] == if i < r || (i == r && j < c) then g0[i][j].(isValidNextCell := false) else g0[i][j]
      {
        g := g[r := g[r][c := g[r][c].(isValidNextCell := false)]];
        c := c + 1;
      }
      r := r + 1;
    }
  }

  /** Second nested loop of the click handler: highlight every non-road cell
      adjacent to `last`; road cells are skipped and nothing is switched off. */
  method MarkValidNext(g0: seq<seq<GridCell>>, last: Coord) returns (g: seq<seq<GridCell>>)
    requires IsRect(g0)
    ensures SameShape(g, g0)
    ensures forall i, j :: 0 <= i < |g0| && 0 <= j < |g0[i]| ==>
      g[i][j] == g0[i][j].(isValidNextCell := g0[i][j].isValidNextCell || (!g0[i][j].isRoad && IsAdjacent(Coord(i, j), last)))
  {
    g := g0;
    var r := 0;
    while r < |g0|
      invariant r <= |g0| && SameShape(g, g0)
      invariant forall i, j :: 0 <= i < |g0| && 0 <= j < |g0[i]| ==>
        g[i][j] == if i < r then g0[i][j].(isValidNextCell := g0[i][j].isValidNextCell || (!g0[i][j].isRoad && IsAdjacent(Coord(i, j), last))) else g0[i][j]
    {
      var c := 0;
      while c < |g0[0]|
        invariant c <= |g0[0]| && SameShape(g, g0)
        invariant forall i, j :: 0 <= i < |g0| && 0 <= j < |g0[i]| ==>
          g[i][j] == if i < r || (i == r && j < c) then g0[i][j].(isValidNextCell := g0[i][j].isValidNextCell || (!g0[i][j].isRoad && IsAdjacent(Coord(i, j), last))) else g0[i][j]
      {
        if !g[r][c].isRoad && IsAdjacent(Coord(r, c), last) {
          g := g[r := g[r][c := g[r][c].(isValidNextCell := true)]];
        }
        c := c + 1;
      }
      r := r + 1;
    }
  }

  /** The flags the first half of the click handler sets: the cell becomes road
      and either the start (first cell) or the new end, demoting the old end. */
  function PlaceRoadCell(grid: seq<seq<GridCell>>, p: Coord, first: bool, endPoint: Option<Coord>): (g: seq<seq<GridCell>>)
    requires IsRect(grid) && InGrid(grid, p)
    requires endPoint.Some? ==> InGrid(grid, endPoint.value)
    ensures IsRect(g) && SameShape(g, grid)
    ensures forall i, j :: 0 <= i < |grid| && 0 <= j < |grid[i]| ==>
      var q, was, now := Coord(i, j), grid[i][j], g[i][j];
      && now.content == was.content && now.row == was.row && now.col == was.col
      && now.isValidNextCell == was.isValidNextCell
      && now.isRoad == (was.isRoad || q == p)
      && now.isStartPoint == (was.isStartPoint || (first && q == p))
      && now.isEndPoint == (if first then was.isEndPoint else q == p || (was.isEndPoint && endPoint != Some(q)))
  {
    var g1 := grid[p.row := grid[p.row][p.col := grid[p.row][p.col].(isRoad := true)]];
    if first then
      g1[p.row := g1[p.row][p.col := g1[p.row][p.col].(isStartPoint := true)]]
    else
      var g2 := if endPoint.Some? then
        var e := endPoint.value;
        g1[e.row := g1[e.row][e.col := g1[e.row][e.col].(isEndPoint := false)]]
      else g1;
      g2[p.row := g2[p.row][p.col := g2[p.row][p.col].(isEndPoint := true)]]
  }

  /** The whole new grid after an accepted click on `p`. */
  predicate ClickedGrid(grid: seq<seq<GridCell>>, grid': seq<seq<GridCell>>, selected: seq<Coord>, endPoint: Option<Coord>, p: Coord) {
    && SameShape(grid', grid)
    && forall i, j :: 0 <= i < |grid| && 0 <= j < |grid[i]| ==>
      var q, was, now := Coord(i, j), grid[i][j], grid'[i][j];
      && now.content == was.content && now.row == was.row && now.col == was.col
      && now.isRoad == (was.isRoad || q == p)
      && now.isStartPoint == (was.isStartPoint || (|selected| == 0 && q == p))
      && now.isEndPoint == (if |selected| == 0 then was.isEndPoint else q == p || (was.isEndPoint && endPoint != Some(q)))
      && now.isValidNextCell == (!now.isRoad && IsAdjacent(q, p))
  }

  /** An accepted click keeps the road invariant: the selection stays a path
      (adjacent, duplicate-free), the road flags mark exactly the selection,
      the start is the first cell, the end the last one once there are two,
      and the highlights are exactly the non-road neighbours of the last cell. */
  lemma ClickKeepsInvariant(
    grid: seq<seq<GridCell>>, grid': seq<seq<GridCell>>, selected: seq<Coord>,
    startPoint: Option<Coord>, endPoint: Option<Coord>, p: Coord)
    requires RoadInvariant(grid, selected, startPoint, endPoint)
    requires Accepts(selected, true, p) && InGrid(grid, p)
    requires ClickedGrid(grid, grid', selected, endPoint, p)
    ensures RoadInvariant(grid', selected + [p],
      if |selected| == 0 then Some(p) else startPoint,
      if |selected| == 0 then endPoint else Some(p))
  {
    var sel := selected + [p];
    forall i, j | 0 <= i < |grid'| && 0 <= j < |grid'[i]|
      ensures FlagsAgree(grid'[i][j], Coord(i, j), sel)
    {
      assert Coord(i, j) in sel <==> Coord(i, j) in selected || Coord(i, j) == p;
      assert FlagsAgree(grid[i][j], Coord(i, j), selected);
    }
    assert IsRect(grid');
  }

  /** The editor's state after a click on `p`: a declined click changes
      nothing; an accepted one appends `p`, makes it the start (first cell) or
      the new end (later cells), and updates the grid as `ClickedGrid` says. */
  predicate ClickOutcome(
    grid: seq<seq<GridCell>>, selected: seq<Coord>, startPoint: Option<Coord>, endPoint: Option<Coord>,
    isEditing: bool, p: Coord,
    grid': seq<seq<GridCell>>, selected': seq<Coord>, startPoint': Option<Coord>, endPoint': Option<Coord>)
  {
    && (!Accepts(selected, isEditing, p) ==>
          grid' == grid && selected' == selected && startPoint' == startPoint && endPoint' == endPoint)
    && (Accepts(selected, isEditing, p) ==>
          && selected' == selected + [p]
          && startPoint' == (if |selected| == 0 then Some(p) else startPoint)
          && endPoint' == (if |selected| == 0 then endPoint else Some(p))
          && ClickedGrid(grid, grid', selected, endPoint, p))
  }

  /**
   * `handleCellClick(row, col)`. A declined click changes nothing. An accepted
   * one appends the cell, marks it as road, makes it the start (first cell) or
   * the new end (later cells, demoting the previous end), and recomputes the
   * highlights from the new last cell. Cell contents never change.
   */
  method HandleCellClick(
    grid: seq<seq<GridCell>>, selected: seq<Coord>, startPoint: Option<Coord>, endPoint: Option<Coord>,
    isEditing: bool, row: int, col: int)
    returns (grid': seq<seq<GridCell>>, selected': seq<Coord>, startPoint': Option<Coord>, endPoint': Option<Coord>)
    requires IsRect(grid) && InGrid(grid, Coord(row, col))
    requires endPoint.Some? ==> InGrid(grid, endPoint.value)
    ensures ClickOutcome(grid, selected, startPoint, endPoint, isEditing, Coord(row, col), grid', selected', startPoint', endPoint')
    ensures IsRect(grid') && SameShape(grid', grid)
    ensures RoadInvariant(grid, selected, startPoint, endPoint) ==> RoadInvariant(grid', selected', startPoint', endPoint')
  {
    grid', selected', startPoint', endPoint' := grid, selected, startPoint, endPoint;
    if !isEditing {
      return;
    }
    var p := Coord(row, col);
    var isValidSelection := |selected| == 0 || IsAdjacent(p, selected[|selected| - 1]);
    if !isValidSelection {
      return;
    }
    var isCellSelected := p in selected;
    if isCellSelected {
      return;
    }
    selected' := selected + [p];
    if |selected'| == 1 {
      startPoint' := Some(p);
    } else {
      endPoint' := Some(p);
    }
    var g := PlaceRoadCell(grid, p, |selected'| == 1, endPoint);
    g := ClearValidNext(g);
    if isEditing && |selected'| > 0 {
      g := MarkValidNext(g, selected'[|selected'| - 1]);
    }
    grid' := g;
    assert ClickedGrid(grid, grid', selected, endPoint, p);
    if RoadInvariant(grid, selected, startPoint, endPoint) {
      ClickKeepsInvariant(grid, grid', selected, startPoint, endPoint, p);
    }
  }

  /** Once the road has two cells or more, exactly one cell is an end point,
      the last selected one, and exactly one is the start, the first one. */
  lemma EndPointIsLast(g: seq<seq<GridCell>>, sel: seq<Coord>, startPoint: Option<Coord>, endPoint: Option<Coord>)
    requires RoadInvariant(g, sel, startPoint, endPoint) && |sel| >= 2
    ensures forall i, j :: 0 <= i < |g| && 0 <= j < |g[i]| ==>
      (g[i][j].isEndPoint <==> Coord(i, j) == sel[|sel| - 1]) && (g[i][j].isStartPoint <==> Coord(i, j) == sel[0])
    ensures g[sel[|sel| - 1].row][sel[|sel| - 1].col].isEndPoint
  {
    var last := sel[|sel| - 1];
    assert FlagsAgree(g[last.row][last.col], Coord(last.row, last.col), sel);
  }
}
