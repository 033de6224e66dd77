/** The optional value used wherever the source has `undefined` or `null`. */
module Options {
  datatype Option<T> = None | Some(value: T)
}

/**
 * Neighbourhood of a cell on the offset-coordinate hexagonal grid of the road
 * page: one 6-entry offset table for cells in an even column, one for cells in
 * an odd column, chosen by the parity of the FIRST cell's column.
 */
module HexAdjacency {

  datatype Coord = Coord(row: int, col: int)

  /** (row, col) offsets of the neighbours of a cell in an even column. */
  const EvenColNeighbors: seq<(int, int)> := [(-1, 0), (-1, 1), (0, 1), (1, 0), (0, -1), (-1, -1)]

  /** (row, col) offsets of the neighbours of a cell in an odd column. */
  const OddColNeighbors: seq<(int, int)> := [(-1, 0), (0, 1), (1, 1), (1, 0), (1, -1), (0, -1)]

  /** `col1 % 2 === 0` in the source; JavaScript's truncating `%` and Dafny's
      Euclidean `%` agree on whether the remainder is zero. */
  predicate IsEvenCol(col: int) {
    col % 2 == 0
  }

  function NeighborOffsets(col: int): (offsets: seq<(int, int)>)
    ensures |offsets| == 6
  {
    if IsEvenCol(col) then EvenColNeighbors else OddColNeighbors
  }

  /** True when some entry of the first cell's offset table leads from `a` to `b`. */
  predicate MatchesOffset(a: Coord, b: Coord) {
    var offsets := NeighborOffsets(a.col);
    exists k :: 0 <= k < |offsets| && a.row + offsets[k].0 == b.row && a.col + offsets[k].1 == b.col
  }

  /** `isAdjacent(row1, col1, row2, col2)`: the same cell is never adjacent to
      itself; otherwise `b` must be one of the six offsets of `a`. */
  predicate IsAdjacent(a: Coord, b: Coord): (adjacent: bool)
    ensures adjacent ==> a != b
    ensures adjacent ==> -1 <= b.row - a.row <= 1 && -1 <= b.col - a.col <= 1
  {
    if a == b then false else MatchesOffset(a, b)
  }

  /** The six neighbours of a cell, written out per column parity. */
  function NeighborSet(a: Coord): set<Coord> {
    var r, c := a.row, a.col;
    if IsEvenCol(c) then
      {Coord(r - 1, c), Coord(r - 1, c + 1), Coord(r, c + 1), Coord(r + 1, c), Coord(r, c - 1), Coord(r - 1, c - 1)}
    else
      {Coord(r - 1, c), Coord(r, c + 1), Coord(r + 1, c + 1), Coord(r + 1, c), Coord(r + 1, c - 1), Coord(r, c - 1)}
  }

  /** `b` is adjacent to `a` exactly when it is one of the six listed neighbours. */
  lemma AdjacentIffInNeighborSet(a: Coord, b: Coord)
    ensures IsAdjacent(a, b) <==> b in NeighborSet(a)
  {
    var r, c := a.row, a.col;
    var offsets := NeighborOffsets(c);
    if b in NeighborSet(a) {
      var k: nat;
      if IsEvenCol(c) {
        k := if b == Coord(r - 1, c) then 0 else if b == Coord(r - 1, c + 1) then 1
             else if b == Coord(r, c + 1) then 2 else if b == Coord(r + 1, c) then 3
             else if b == Coord(r, c - 1) then 4 else 5;
      } else {
        k := if b == Coord(r - 1, c) then 0 else if b == Coord(r, c + 1) then 1
             else if b == Coord(r + 1, c + 1) then 2 else if b == Coord(r + 1, c) then 3
             else if b == Coord(r + 1, c - 1) then 4 else 5;
      }
      assert a.row + offsets[k].0 == b.row && a.col + offsets[k].1 == b.col;
    }
  }

  /** Every cell has exactly six adjacent coordinates. */
  lemma SixNeighbors(a: Coord)
    ensures |NeighborSet(a)| == 6
    ensures forall b :: IsAdjacent(a, b) <==> b in NeighborSet(a)
  {
    forall b ensures IsAdjacent(a, b) <==> b in NeighborSet(a) {
      AdjacentIffInNeighborSet(a, b);
    }
    NeighborSetSize(a);
  }

  lemma NeighborSetSize(a: Coord)
    ensures |NeighborSet(a)| == 6
  {
    var r, c := a.row, a.col;
    var n0, n1, n2, n3, n4, n5;
    if IsEvenCol(c) {
      n0, n1, n2, n3, n4, n5 := Coord(r - 1, c), Coord(r - 1, c + 1), Coord(r, c + 1), Coord(r + 1, c), Coord(r, c - 1), Coord(r - 1, c - 1);
    } else {
      n0, n1, n2, n3, n4, n5 := Coord(r - 1, c), Coord(r, c + 1), Coord(r + 1, c + 1), Coord(r + 1, c), Coord(r + 1, c - 1), Coord(r, c - 1);
    }
    var s1 := {n0};
    assert n1 !in s1;
    var s2 := s1 + {n1};
    assert n2 !in s2;
    var s3 := s2 + {n2};
    assert n3 !in s3;
    var s4 := s3 + {n3};
    assert n4 !in s4;
    var s5 := s4 + {n4};
    assert n5 !in s5;
    var s6 := s5 + {n5};
    assert |s6| == 6;
    assert s6 == NeighborSet(a);
  }

  /** A cell is never adjacent to itself. */
  lemma AdjacencyIrreflexive(a: Coord)
    ensures !IsAdjacent(a, a)
  {
  }

  /** The even- and odd-column tables mirror each other, so adjacency is
      symmetric for all integer coordinates, negative ones included. */
  lemma AdjacencySymmetric(a: Coord, b: Coord)
    ensures IsAdjacent(a, b) <==> IsAdjacent(b, a)
  {
    AdjacentIffInNeighborSet(a, b);
    AdjacentIffInNeighborSet(b, a);
    if b.col == a.col + 1 || b.col == a.col - 1 {
      assert IsEvenCol(a.col) <==> !IsEvenCol(b.col);
    }
  }
}
