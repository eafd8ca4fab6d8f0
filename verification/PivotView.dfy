/** The rows of a pivot table that show when some groups are collapsed, and the spans of the
    dimension cells on a page of them. */
module PivotView {
  import opened JsonValues

  type Path = seq<Json>

  datatype Row = Row(path: Path, index: nat)

  // ---- which rows show

  predicate Below(collapsed: seq<Path>, path: Path) {
    exists i :: 0 <= i < |collapsed| && collapsed[i] < path
  }

  /** Is the path the parent of another one? */
  predicate Parent(paths: seq<Path>, path: Path) {
    exists i :: 0 <= i < |paths| && |paths[i]| > 1 && paths[i][..|paths[i]| - 1] == path
  }

  predicate Shown(paths: seq<Path>, depth: nat, collapsed: seq<Path>, path: Path) {
    depth == 0 || (!Below(collapsed, path) && (|path| == depth || !Parent(paths, path) || path in collapsed))
  }

  /** The rows of the first `n` paths that show, in their order, each with its place. */
  function Rows(paths: seq<Path>, depth: nat, collapsed: seq<Path>, n: nat): (rows: seq<Row>)
    requires n <= |paths|
    ensures forall r :: r in rows <==> r.index < n && r.path == paths[r.index] && Shown(paths, depth, collapsed, r.path)
    ensures forall i, j :: 0 <= i < j < |rows| ==> rows[i].index < rows[j].index
  {
    if n == 0 then []
    else
      var before := Rows(paths, depth, collapsed, n - 1);
      if Shown(paths, depth, collapsed, paths[n - 1]) then before + [Row(paths[n - 1], n - 1)] else before
  }

  /** What the cube promises: a forest of groups, every group listed once. */
  predicate Forest(paths: seq<Path>, depth: nat) {
    && (forall i :: 0 <= i < |paths| ==> 0 < |paths[i]| <= depth)
    && (forall i, j :: 0 <= i < j < |paths| ==> paths[i] != paths[j])
    && (forall i, n :: 0 <= i < |paths| && 0 < n < |paths[i]| ==> paths[i][..n] in paths)
  }

  /** A path with nothing below it. */
  predicate Leaf(paths: seq<Path>, path: Path) {
    path in paths && forall i :: 0 <= i < |paths| ==> !(path < paths[i])
  }

  /** Exactly one row covers the path. */
  predicate CoveredOnce(rows: seq<Row>, path: Path) {
    exists i :: 0 <= i < |rows| && rows[i].path <= path
      && forall j :: 0 <= j < |rows| && rows[j].path <= path ==> j == i
  }

  lemma InnerIsParent(paths: seq<Path>, depth: nat, path: Path, longer: Path)
    requires Forest(paths, depth) && longer in paths && path < longer && path != []
    ensures Parent(paths, path)
  {
    var n := |path| + 1;
    assert longer[..n] in paths by {
      if n < |longer| {
        var i :| 0 <= i < |paths| && paths[i] == longer;
        assert paths[i][..n] in paths;
      } else {
        assert longer[..n] == longer;
      }
    }
    var k :| 0 <= k < |paths| && paths[k] == longer[..n];
    assert paths[k][..n - 1] == path;
  }

  /** The shortest collapsed group above the path, or the path itself. */
  function Cover(collapsed: seq<Path>, path: Path, n: nat): (cover: Path)
    requires n <= |path| && forall m :: 0 <= m < n ==> path[..m] !in collapsed
    ensures cover <= path && !Below(collapsed, cover) && (cover == path || cover in collapsed)
    decreases |path| - n
  {
    if n == |path| || path[..n] in collapsed then
      assert forall i :: 0 <= i < |collapsed| && collapsed[i] < path[..n] ==> collapsed[i] == path[..|collapsed[i]|];
      assert n == |path| ==> path[..n] == path;
      path[..n]
    else Cover(collapsed, path, n + 1)
  }

  lemma ShownAbove(paths: seq<Path>, depth: nat, collapsed: seq<Path>, leaf: Path, path: Path)
    requires Forest(paths, depth) && Leaf(paths, leaf) && path in paths && path <= leaf
    requires Shown(paths, depth, collapsed, path)
    ensures !Below(collapsed, path) && (path == leaf || path in collapsed)
  {
    if path != leaf {
      InnerIsParent(paths, depth, path, leaf);
    }
  }

  lemma LeafHasNoChild(paths: seq<Path>, leaf: Path)
    requires Leaf(paths, leaf)
    ensures !Parent(paths, leaf)
  {
    forall i | 0 <= i < |paths| && |paths[i]| > 1 ensures paths[i][..|paths[i]| - 1] != leaf {
      assert !(leaf < paths[i]);
    }
  }

  /** The cover is a group that shows. */
  lemma CoverShows(paths: seq<Path>, depth: nat, collapsed: seq<Path>, leaf: Path) returns (k: nat)
    requires depth > 0 && Forest(paths, depth) && Leaf(paths, leaf) && [] !in collapsed
    ensures k < |paths| && paths[k] == Cover(collapsed, leaf, 0) && Shown(paths, depth, collapsed, paths[k])
  {
    var cover := Cover(collapsed, leaf, 0);
    LeafHasNoChild(paths, leaf);
    var i :| 0 <= i < |paths| && paths[i] == leaf;
    if cover == leaf {
      k := i;
    } else {
      assert cover == paths[i][..|cover|] && 0 < |cover| < |paths[i]|;
      k :| 0 <= k < |paths| && paths[k] == cover;
    }
  }

  lemma OneCover(paths: seq<Path>, depth: nat, collapsed: seq<Path>, leaf: Path)
    requires depth > 0 && Forest(paths, depth) && Leaf(paths, leaf) && [] !in collapsed
    ensures CoveredOnce(Rows(paths, depth, collapsed, |paths|), leaf)
  {
    var rows := Rows(paths, depth, collapsed, |paths|);
    var k := CoverShows(paths, depth, collapsed, leaf);
    forall i | 0 <= i < |rows| && rows[i].path <= leaf ensures rows[i].index == k {
      OnlyCover(paths, depth, collapsed, leaf, k, rows[i]);
    }
    SoleRow(rows, Row(paths[k], k), leaf);
  }

  lemma SoleRow(rows: seq<Row>, row: Row, leaf: Path)
    requires row in rows && row.path <= leaf
    requires forall i, j :: 0 <= i < j < |rows| ==> rows[i].index < rows[j].index
    requires forall i :: 0 <= i < |rows| && rows[i].path <= leaf ==> rows[i].index == row.index
    ensures CoveredOnce(rows, leaf)
  {
    var i :| 0 <= i < |rows| && rows[i] == row;
    forall j | 0 <= j < |rows| && rows[j].path <= leaf ensures j == i {
    }
  }

  lemma OnlyCover(paths: seq<Path>, depth: nat, collapsed: seq<Path>, leaf: Path, k: nat, row: Row)
    requires depth > 0 && Forest(paths, depth) && Leaf(paths, leaf)
    requires k < |paths| && paths[k] == Cover(collapsed, leaf, 0)
    requires row in Rows(paths, depth, collapsed, |paths|) && row.path <= leaf
    ensures row.index == k
  {
    ShownAbove(paths, depth, collapsed, leaf, row.path);
    SameCover(collapsed, leaf, paths[k], row.path);
    assert paths[row.index] == paths[k];
  }

  /** Two covers of one leaf are the same. */
  lemma SameCover(collapsed: seq<Path>, leaf: Path, a: Path, b: Path)
    requires a <= leaf && !Below(collapsed, a) && (a == leaf || a in collapsed)
    requires b <= leaf && !Below(collapsed, b) && (b == leaf || b in collapsed)
    ensures a == b
  {
    assert a == leaf[..|a|] && b == leaf[..|b|];
    assert a <= b || b <= a;
    assert a < b ==> a in collapsed && Below(collapsed, b);
    assert b < a ==> b in collapsed && Below(collapsed, a);
  }

  /** Whatever else is collapsed, with no search text every leaf group has exactly one row on
      show that stands for it, if and only if the empty path is not collapsed. */
  lemma CollapseIsExactCover(paths: seq<Path>, depth: nat, collapsed: seq<Path>, leaf: Path)
    requires depth > 0 && Forest(paths, depth) && Leaf(paths, leaf)
    ensures CoveredOnce(Rows(paths, depth, collapsed, |paths|), leaf) <==> [] !in collapsed
  {
    var rows := Rows(paths, depth, collapsed, |paths|);
    if [] !in collapsed {
      OneCover(paths, depth, collapsed, leaf);
    } else {
      var c :| 0 <= c < |collapsed| && collapsed[c] == [];
      assert forall path: Path :: path != [] ==> collapsed[c] < path && Below(collapsed, path);
      assert forall i :: 0 <= i < |rows| ==> rows[i] in rows && paths[rows[i].index] != [];
    }
  }

  /** No row stands for nothing: below every row on show there is a leaf group. */
  lemma {:induction false} EveryRowCovers(paths: seq<Path>, depth: nat, path: Path) returns (leaf: Path)
    requires Forest(paths, depth) && path in paths
    ensures Leaf(paths, leaf) && path <= leaf
    decreases depth - |path|
  {
    var k :| 0 <= k < |paths| && paths[k] == path;
    assert 0 < |paths[k]| <= depth;
    if i :| 0 <= i < |paths| && path < paths[i] {
      assert 0 < |paths[i]| <= depth;
      leaf := EveryRowCovers(paths, depth, paths[i]);
    } else {
      leaf := path;
    }
  }

  // ---- the dimension cells of a page

  datatype Cell = Cell(row: nat, dimension: nat, span: nat)

  function Dimensions(depth: nat): nat {
    if depth == 0 then 1 else depth
  }

  /** Do the two rows share a cell in this dimension? */
  predicate Joined(depth: nat, left: Path, right: Path, dimension: nat) {
    dimension < depth && |left| == depth && |right| == depth && left[..dimension + 1] == right[..dimension + 1]
  }

  /** A cell is written where a group starts, and reaches to where it ends. */
  predicate Written(rows: seq<Path>, depth: nat, cell: Cell) {
    && cell.dimension < Dimensions(depth) && cell.span > 0 && cell.row + cell.span <= |rows|
    && (cell.row > 0 ==> !Joined(depth, rows[cell.row], rows[cell.row - 1], cell.dimension))
    && (forall k :: cell.row < k < cell.row + cell.span ==> Joined(depth, rows[cell.row], rows[k], cell.dimension))
    && (cell.row + cell.span < |rows| ==> !Joined(depth, rows[cell.row], rows[cell.row + cell.span], cell.dimension))
  }

  predicate Covers(cell: Cell, row: nat, dimension: nat) {
    cell.dimension == dimension && cell.row <= row < cell.row + cell.span
  }

  method SpanAt(rows: seq<Path>, depth: nat, row: nat, dimension: nat) returns (span: nat)
    requires row < |rows| && dimension < Dimensions(depth)
    ensures span > 0 && row + span <= |rows|
    ensures forall k :: row < k < row + span ==> Joined(depth, rows[row], rows[k], dimension)
    ensures row + span < |rows| ==> !Joined(depth, rows[row], rows[row + span], dimension)
  {
    span := 1;
    if depth > 0 && |rows[row]| == depth {
      while row + span < |rows| && Joined(depth, rows[row], rows[row + span], dimension)
        invariant span > 0 && row + span <= |rows|
        invariant forall k :: row < k < row + span ==> Joined(depth, rows[row], rows[k], dimension)
      {
        span := span + 1;
      }
    }
  }

  /** Was the cell written before position `(row, dimension)` of the page was reached? */
  predicate Before(cell: Cell, row: nat, dimension: nat) {
    cell.row < row || (cell.row == row && cell.dimension < dimension)
  }

  method DimensionCells(rows: seq<Path>, depth: nat) returns (cells: seq<Cell>)
    ensures forall c :: c in cells <==> Written(rows, depth, c)
    ensures forall i, j :: 0 <= i < j < |cells| ==> cells[i] != cells[j]
  {
    cells := [];
    for row := 0 to |rows|
      invariant forall c :: c in cells <==> Written(rows, depth, c) && Before(c, row, 0)
      invariant forall i, j :: 0 <= i < j < |cells| ==> cells[i] != cells[j]
    {
      for dimension := 0 to Dimensions(depth)
        invariant forall c :: c in cells <==> Written(rows, depth, c) && Before(c, row, dimension)
        invariant forall i, j :: 0 <= i < j < |cells| ==> cells[i] != cells[j]
      {
        if depth > 0 && row > 0 && Joined(depth, rows[row], rows[row - 1], dimension) {
          continue;
        }
        var span := SpanAt(rows, depth, row, dimension);
        OneSpan(rows, depth, Cell(row, dimension, span));
        assert forall i :: 0 <= i < |cells| ==> cells[i] in cells && Before(cells[i], row, dimension);
        cells := cells + [Cell(row, dimension, span)];
      }
    }
  }

  lemma OneSpan(rows: seq<Path>, depth: nat, cell: Cell)
    requires Written(rows, depth, cell)
    ensures forall c :: Written(rows, depth, c) && c.row == cell.row && c.dimension == cell.dimension ==> c == cell
  {
  }

  lemma {:induction false} Starts(rows: seq<Path>, depth: nat, row: nat, dimension: nat) returns (start: nat)
    requires row < |rows| && dimension < Dimensions(depth)
    ensures start <= row
    ensures start > 0 ==> !Joined(depth, rows[start], rows[start - 1], dimension)
    ensures forall k :: start < k <= row ==> Joined(depth, rows[start], rows[k], dimension)
    decreases row
  {
    if row == 0 || !Joined(depth, rows[row], rows[row - 1], dimension) {
      start := row;
    } else {
      start := Starts(rows, depth, row - 1, dimension);
    }
  }

  lemma {:induction false} Ends(rows: seq<Path>, depth: nat, start: nat, row: nat, dimension: nat) returns (end: nat)
    requires start <= row < |rows| && dimension < Dimensions(depth)
    requires forall k :: start < k <= row ==> Joined(depth, rows[start], rows[k], dimension)
    ensures row < end <= |rows|
    ensures forall k :: start < k < end ==> Joined(depth, rows[start], rows[k], dimension)
    ensures end < |rows| ==> !Joined(depth, rows[start], rows[end], dimension)
    decreases |rows| - row
  {
    if row + 1 < |rows| && Joined(depth, rows[start], rows[row + 1], dimension) {
      end := Ends(rows, depth, start, row + 1, dimension);
    } else {
      end := row + 1;
    }
  }

  /** In every dimension the written cells tile the page: each row lies in one of them, and
      in no two. */
  lemma CellsTile(rows: seq<Path>, depth: nat, row: nat, dimension: nat)
    requires row < |rows| && dimension < Dimensions(depth)
    ensures exists c :: Written(rows, depth, c) && Covers(c, row, dimension)
    ensures forall c, d ::
              Written(rows, depth, c) && Covers(c, row, dimension) && Written(rows, depth, d)
              && Covers(d, row, dimension)
              ==> c == d
  {
    var start := Starts(rows, depth, row, dimension);
    var end := Ends(rows, depth, start, row, dimension);
    var cell := Cell(start, dimension, end - start);
    assert Written(rows, depth, cell) && Covers(cell, row, dimension);
    forall c, d | Written(rows, depth, c) && Covers(c, row, dimension)
                  && Written(rows, depth, d) && Covers(d, row, dimension)
      ensures c == d {
      NoOverlap(rows, depth, row, dimension, c, d);
      NoOverlap(rows, depth, row, dimension, d, c);
      OneSpan(rows, depth, c);
    }
  }

  lemma JoinedTogether(depth: nat, first: Path, left: Path, right: Path, dimension: nat)
    requires first == left || Joined(depth, first, left, dimension)
    requires Joined(depth, first, right, dimension)
    ensures Joined(depth, right, left, dimension)
  {
  }

  /** A cell that starts later than another one does not reach into it. */
  lemma NoOverlap(rows: seq<Path>, depth: nat, row: nat, dimension: nat, c: Cell, d: Cell)
    requires Written(rows, depth, c) && Covers(c, row, dimension) && Written(rows, depth, d)
             && Covers(d, row, dimension)
    ensures c.row <= d.row
  {
    if d.row < c.row {
      JoinedTogether(depth, rows[d.row], rows[c.row - 1], rows[c.row], dimension);
    }
  }
}
