/**
 * The watermark tile grid: the ordered `fillText` origins that
 * `createCanvasImage` emits, in the frame already translated and rotated by
 * -45 degrees. Column `i` sits at x = textWidth*i + level*i; each column
 * draws one seed tile at y = vertical, then tiles at y = vertical*j for
 * j in [0, ceil(canvasHeight / vertical)).
 */
module Tiling {
  import opened Optional
  import opened JsNumber

  /** One `fillText` origin in the rotated frame. */
  datatype Tile = Tile(x: real, y: real)

  /**
   * The numbers the tiling loop reads: surface size, the measured width of
   * the watermark text, the horizontal gap (`level`) and the vertical gap
   * (`vertical`).
   */
  datatype TileLayout = TileLayout(
    canvasWidth: real,
    canvasHeight: real,
    textWidth: real,
    level: real,
    vertical: real)

  /** The x-origin shared by every tile of column `i`. */
  function ColumnX(g: TileLayout, i: nat): real
  {
    g.textWidth * i as real + g.level * i as real
  }

  /** The tile a column draws before its inner loop. */
  function SeedTile(g: TileLayout, i: nat): Tile
  {
    Tile(ColumnX(g, i), g.vertical)
  }

  /** The first `n` tiles of the inner loop of column `i`, in drawing order. */
  function RowTiles(g: TileLayout, i: nat, n: nat): seq<Tile>
  {
    if n == 0 then []
    else RowTiles(g, i, n - 1) + [RowTile(g, i, n - 1)]
  }

  /** The tile inner-loop step `j` of column `i` draws. */
  function RowTile(g: TileLayout, i: nat, j: nat): Tile
  {
    Tile(ColumnX(g, i), g.vertical * j as real)
  }

  /** Everything column `i` draws when the inner loop runs `rows` times. */
  function Column(g: TileLayout, i: nat, rows: nat): seq<Tile>
  {
    [SeedTile(g, i)] + RowTiles(g, i, rows)
  }

  /** The tiles of columns 0 .. cols-1, in drawing order. */
  function Columns(g: TileLayout, cols: nat, rows: nat): seq<Tile>
  {
    if cols == 0 then []
    else Columns(g, cols - 1, rows) + Column(g, cols - 1, rows)
  }

  /**
   * Slot `s` of column `i`: slot 0 is the seed at y = vertical, slot s > 0
   * is the inner-loop tile j = s - 1.
   */
  function TileAt(g: TileLayout, i: nat, s: nat): Tile
  {
    if s == 0 then SeedTile(g, i) else RowTile(g, i, s - 1)
  }

  /**
   * The tiles `createCanvasImage` draws, or `None` when one of its loops
   * never stops. The outer loop runs `Math.ceil(canvasWidth / textWidth)`
   * times and the inner one `Math.ceil(canvasHeight / vertical)` times;
   * there is no guard against a zero divisor.
   */
  function TileGrid(g: TileLayout): (r: Option<seq<Tile>>)
    ensures r.None? <==>
      || (g.textWidth == 0.0 && g.canvasWidth > 0.0)
      || (g.textWidth != 0.0 && g.canvasWidth / g.textWidth > 0.0
          && g.vertical == 0.0 && g.canvasHeight > 0.0)
  {
    match LoopCount(g.canvasWidth, g.textWidth)
    case None => None
    case Some(cols) =>
      if cols == 0 then Some([])
      else
        match LoopCount(g.canvasHeight, g.vertical)
        case None => None
        case Some(rows) => Some(Columns(g, cols, rows))
  }

  /** `createCanvasImage`'s loop bounds, then its nested loops. */
  method DrawTiles(g: TileLayout) returns (r: Option<seq<Tile>>)
    ensures r == TileGrid(g)
  {
    var levelNum := LoopCount(g.canvasWidth, g.textWidth);
    if levelNum.None? {
      return None;
    }
    var cols := levelNum.value;
    if cols == 0 {
      return Some([]);
    }
    var verticalNum := LoopCount(g.canvasHeight, g.vertical);
    if verticalNum.None? {
      return None;
    }
    var tiles := DrawColumns(g, cols, verticalNum.value);
    return Some(tiles);
  }

  /** The nested loops of `createCanvasImage`, appending each `fillText` origin. */
  method DrawColumns(g: TileLayout, cols: nat, rows: nat) returns (tiles: seq<Tile>)
    ensures tiles == Columns(g, cols, rows)
  {
    tiles := [];
    var i := 0;
    while i < cols
      invariant 0 <= i <= cols
      invariant tiles == Columns(g, i, rows)
    {
      var levelWidth := g.textWidth * i as real + g.level * i as real;
      assert levelWidth == ColumnX(g, i);
      tiles := tiles + [Tile(levelWidth, g.vertical)];
      var j := 0;
      while j < rows
        invariant 0 <= j <= rows
        invariant tiles == Columns(g, i, rows) + [SeedTile(g, i)] + RowTiles(g, i, j)
      {
        tiles := tiles + [Tile(levelWidth, g.vertical * j as real)];
        assert Tile(levelWidth, g.vertical * j as real) == RowTile(g, i, j);
        j := j + 1;
      }
      assert Columns(g, i + 1, rows) == Columns(g, i, rows) + ([SeedTile(g, i)] + RowTiles(g, i, rows));
      i := i + 1;
    }
  }

  // ---------------------------------------------------------------------
  // Shape of the grid

  lemma {:induction false} RowTilesLength(g: TileLayout, i: nat, n: nat)
    ensures |RowTiles(g, i, n)| == n
  {
    if n > 0 {
      RowTilesLength(g, i, n - 1);
    }
  }

  /** Inner-loop tile `j` of column `i` sits at y = vertical*j. */
  lemma {:induction false} RowTilesAt(g: TileLayout, i: nat, n: nat, j: nat)
    requires j < n
    ensures |RowTiles(g, i, n)| == n
    ensures RowTiles(g, i, n)[j] == Tile(ColumnX(g, i), g.vertical * j as real)
  {
    RowTilesLength(g, i, n);
    if j < n - 1 {
      RowTilesAt(g, i, n - 1, j);
    } else {
      RowTilesLength(g, i, n - 1);
    }
  }

  /** A column holds its seed followed by the inner loop's tiles. */
  lemma ColumnAt(g: TileLayout, i: nat, rows: nat, s: nat)
    requires s <= rows
    ensures |Column(g, i, rows)| == rows + 1
    ensures Column(g, i, rows)[s] == TileAt(g, i, s)
  {
    RowTilesLength(g, i, rows);
    if s > 0 {
      RowTilesAt(g, i, rows, s - 1);
    }
  }

  /** `cols` columns of `rows + 1` tiles each. */
  lemma {:induction false} ColumnsLength(g: TileLayout, cols: nat, rows: nat)
    ensures |Columns(g, cols, rows)| == cols * (rows + 1)
  {
    if cols > 0 {
      ColumnsLength(g, cols - 1, rows);
      RowTilesLength(g, cols - 1, rows);
    }
  }

  /**
   * Column `i` occupies positions i*(rows+1) .. i*(rows+1)+rows, and slot `s`
   * of it is `TileAt(g, i, s)`: columns come in increasing `i`, and within a
   * column the seed comes first, then y = 0, vertical, 2*vertical, ...
   */
  lemma {:induction false} ColumnsAt(g: TileLayout, cols: nat, rows: nat, i: nat, s: nat)
    requires i < cols && s <= rows
    ensures i * (rows + 1) + s < |Columns(g, cols, rows)|
    ensures Columns(g, cols, rows)[i * (rows + 1) + s] == TileAt(g, i, s)
  {
    var k := i * (rows + 1) + s;
    var prev := Columns(g, cols - 1, rows);
    var col := Column(g, cols - 1, rows);
    assert Columns(g, cols, rows) == prev + col;
    ColumnAt(g, cols - 1, rows, s);
    if i < cols - 1 {
      ColumnsAt(g, cols - 1, rows, i, s);
      assert (prev + col)[k] == prev[k];
    } else {
      ColumnsLength(g, cols - 1, rows);
      assert k == |prev| + s;
      assert (prev + col)[k] == col[s];
    }
  }

  /** Every tile lies in some column `i < cols` at some slot `s <= rows`, and each such slot is drawn. */
  lemma {:induction false} ColumnsMembership(g: TileLayout, cols: nat, rows: nat, t: Tile)
    ensures t in Columns(g, cols, rows) <==>
      exists i: nat, s: nat :: i < cols && s <= rows && t == TileAt(g, i, s)
  {
    if t in Columns(g, cols, rows) {
      assert cols > 0;
      if t in Columns(g, cols - 1, rows) {
        ColumnsMembership(g, cols - 1, rows, t);
        var i: nat, s: nat :| i < cols - 1 && s <= rows && t == TileAt(g, i, s);
        assert i < cols;
      } else {
        var k :| 0 <= k < |Column(g, cols - 1, rows)| && Column(g, cols - 1, rows)[k] == t;
        RowTilesLength(g, cols - 1, rows);
        ColumnAt(g, cols - 1, rows, k);
      }
    }
    if exists i: nat, s: nat :: i < cols && s <= rows && t == TileAt(g, i, s) {
      var i: nat, s: nat :| i < cols && s <= rows && t == TileAt(g, i, s);
      ColumnsAt(g, cols, rows, i, s);
    }
  }

  // ---------------------------------------------------------------------
  // Ordering

  /** Columns step right when the text width plus the gap is not negative. */
  lemma ColumnXMonotone(g: TileLayout, i: nat, k: nat)
    requires g.textWidth + g.level >= 0.0 && i <= k
    ensures ColumnX(g, i) <= ColumnX(g, k)
  {
    assert ColumnX(g, k) - ColumnX(g, i) == (g.textWidth + g.level) * (k - i) as real;
  }

  /** Every tile of a column shares that column's x-origin. */
  lemma {:induction false} ColumnShareX(g: TileLayout, i: nat, rows: nat)
    ensures forall k :: 0 <= k < |Column(g, i, rows)| ==> Column(g, i, rows)[k].x == ColumnX(g, i)
  {
    RowTilesLength(g, i, rows);
    forall k | 0 <= k < |Column(g, i, rows)|
      ensures Column(g, i, rows)[k].x == ColumnX(g, i)
    {
      ColumnAt(g, i, rows, k);
    }
  }

  /** No tile of the first `cols` columns lies right of the last of them. */
  lemma {:induction false} ColumnsBoundedX(g: TileLayout, cols: nat, rows: nat)
    requires g.textWidth + g.level >= 0.0 && cols > 0
    ensures forall k :: 0 <= k < |Columns(g, cols, rows)| ==>
      Columns(g, cols, rows)[k].x <= ColumnX(g, cols - 1)
  {
    var prev := Columns(g, cols - 1, rows);
    ColumnShareX(g, cols - 1, rows);
    if cols > 1 {
      ColumnsBoundedX(g, cols - 1, rows);
      ColumnXMonotone(g, cols - 2, cols - 1);
    }
    forall k | 0 <= k < |Columns(g, cols, rows)|
      ensures Columns(g, cols, rows)[k].x <= ColumnX(g, cols - 1)
    {
      if k >= |prev| {
        assert Columns(g, cols, rows)[k] == Column(g, cols - 1, rows)[k - |prev|];
      } else {
        assert Columns(g, cols, rows)[k] == prev[k];
      }
    }
  }

  /**
   * Along the drawing order the x-origin never decreases, provided the
   * text width plus the horizontal gap is not negative.
   */
  lemma {:induction false} ColumnsSortedByX(g: TileLayout, cols: nat, rows: nat)
    requires g.textWidth + g.level >= 0.0
    ensures forall a, b :: 0 <= a <= b < |Columns(g, cols, rows)| ==>
      Columns(g, cols, rows)[a].x <= Columns(g, cols, rows)[b].x
  {
    if cols > 0 {
      var prev := Columns(g, cols - 1, rows);
      var col := Column(g, cols - 1, rows);
      var all := Columns(g, cols, rows);
      assert all == prev + col;
      ColumnsSortedByX(g, cols - 1, rows);
      ColumnShareX(g, cols - 1, rows);
      if cols > 1 {
        ColumnsBoundedX(g, cols - 1, rows);
        ColumnXMonotone(g, cols - 2, cols - 1);
      }
      forall a, b | 0 <= a <= b < |all|
        ensures all[a].x <= all[b].x
      {
        if b < |prev| {
          assert all[a] == prev[a] && all[b] == prev[b];
        } else if a >= |prev| {
          assert all[a] == col[a - |prev|] && all[b] == col[b - |prev|];
        } else {
          assert all[a] == prev[a] && all[b] == col[b - |prev|];
        }
      }
    }
  }

  // ---------------------------------------------------------------------
  // The repeated seed row

  /** Some tile occurs twice in `s`. */
  predicate HasRepeat(s: seq<Tile>)
  {
    exists a, b :: 0 <= a < b < |s| && s[a] == s[b]
  }

  /**
   * With a non-zero vertical gap, a column draws the same origin twice
   * exactly when the inner loop runs at least twice: the seed at y = vertical
   * and the inner tile j = 1 coincide.
   */
  lemma ColumnRepeatsIff(g: TileLayout, i: nat, rows: nat)
    requires g.vertical != 0.0
    ensures HasRepeat(Column(g, i, rows)) <==> rows >= 2
  {
    var c := Column(g, i, rows);
    RowTilesLength(g, i, rows);
    if rows >= 2 {
      ColumnAt(g, i, rows, 0);
      ColumnAt(g, i, rows, 2);
      assert c[0] == c[2];
    } else if rows == 1 {
      ColumnAt(g, i, rows, 0);
      ColumnAt(g, i, rows, 1);
      assert c[0].y != c[1].y;
    }
  }

  /** Slots 0 and 2 of every column are the same origin once the inner loop runs twice. */
  lemma SeedDrawnTwice(g: TileLayout, cols: nat, rows: nat, i: nat)
    requires i < cols && rows >= 2
    ensures i * (rows + 1) + 2 < |Columns(g, cols, rows)|
    ensures Columns(g, cols, rows)[i * (rows + 1)] == Columns(g, cols, rows)[i * (rows + 1) + 2]
      == Tile(ColumnX(g, i), g.vertical)
  {
    ColumnsAt(g, cols, rows, i, 0);
    ColumnsAt(g, cols, rows, i, 2);
  }

  // ---------------------------------------------------------------------
  // The grid for a positive text width and vertical gap

  /**
   * With a positive text width and vertical gap the loops stop; the grid has
   * ceil(canvasWidth/textWidth) columns of ceil(canvasHeight/vertical) + 1
   * tiles (bounds below zero count as zero iterations), and these counts
   * are the least that reach the surface's width and height.
   */
  lemma GridShape(g: TileLayout)
    requires g.textWidth > 0.0 && g.vertical > 0.0
    ensures
      var cols := NonNeg(Ceil(g.canvasWidth / g.textWidth));
      var rows := NonNeg(Ceil(g.canvasHeight / g.vertical));
      && TileGrid(g) == Some(Columns(g, cols, rows))
      && |TileGrid(g).value| == cols * (rows + 1)
      && IsLeastCover(cols, g.canvasWidth, g.textWidth)
      && IsLeastCover(rows, g.canvasHeight, g.vertical)
  {
    var cols := NonNeg(Ceil(g.canvasWidth / g.textWidth));
    var rows := NonNeg(Ceil(g.canvasHeight / g.vertical));
    CeilIsLeastCover(g.canvasWidth, g.textWidth);
    CeilIsLeastCover(g.canvasHeight, g.vertical);
    LoopCountIsTheLeastCover(g.canvasWidth, g.textWidth, cols);
    LoopCountIsTheLeastCover(g.canvasHeight, g.vertical, rows);
    ColumnsLength(g, cols, rows);
  }
}
