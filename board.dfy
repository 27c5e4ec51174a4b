/**
 The grid model of the `Sudoku` class in solve.py: construction, the row-major list of
 positions, the "connected" set of a position, and the validity check.

 The board is a rectangular grid of integers; a value that appears in `symbols` is a
 filled cell, any other value (the boards use 0) is an empty cell.
 */
module Board {

  /** A (row, column) pair, as the Python tuples that index the numpy board. */
  type Pos = (int, int)

  /** The exceptions construction can raise. */
  datatype Error =
    | ValueError         // the box does not fit evenly into the board
    | ZeroDivisionError  // a box dimension of 0 (Python's `%` by zero)

  datatype Result<T> = Ok(value: T) | Err(error: Error)

  /** The fields `__init__` sets; none of them is assigned afterwards. */
  datatype Sudoku = Sudoku(
    board: seq<seq<int>>,
    symbols: seq<int>,
    height: nat,
    width: nat,
    depth: nat,
    boxHeight: nat,
    boxWidth: nat)

  /** A two-dimensional numpy array: at least one row, every row as long as the first. */
  predicate Rectangular(board: seq<seq<int>>)
  {
    |board| > 0 && forall r :: 0 <= r < |board| ==> |board[r]| == |board[0]|
  }

  /** What a successfully constructed `Sudoku` satisfies. */
  predicate Valid(s: Sudoku)
  {
    && Rectangular(s.board)
    && s.height == |s.board|
    && s.width == |s.board[0]|
    && s.depth == |s.symbols|
    && s.boxHeight > 0 && s.boxWidth > 0
    && s.height % s.boxHeight == 0
    && s.width % s.boxWidth == 0
  }

  /**
   The methods that read the board at connected positions need a square board:
   the row and column ranges of `get_connected_positions` are swapped, so on any
   other shape they index past the board.
   */
  predicate Square(s: Sudoku)
  {
    Valid(s) && s.height == s.width
  }

  predicate InBoard(s: Sudoku, p: Pos)
  {
    0 <= p.0 < s.height && 0 <= p.1 < s.width
  }

  /** `self.board[pos]` */
  function At(s: Sudoku, p: Pos): int
    requires Valid(s) && InBoard(s, p)
  {
    s.board[p.0][p.1]
  }

  /** Two positions share a row, a column or a box (boxes numbered by division). */
  predicate Peers(s: Sudoku, p: Pos, q: Pos)
    requires Valid(s)
  {
    || p.0 == q.0
    || p.1 == q.1
    || (p.0 / s.boxHeight == q.0 / s.boxHeight && p.1 / s.boxWidth == q.1 / s.boxWidth)
  }

  /**
   `Sudoku.__init__`: the shape comes from the board, the depth from the symbols, and the
   `or` of the two divisibility tests is evaluated left to right.
   */
  function NewSudoku(board: seq<seq<int>>, symbols: seq<int>, boxHeight: nat, boxWidth: nat): (r: Result<Sudoku>)
    requires Rectangular(board)
    ensures r.Ok? <==>
              boxHeight > 0 && boxWidth > 0 && |board| % boxHeight == 0 && |board[0]| % boxWidth == 0
    ensures r == Err(ZeroDivisionError) <==>
              boxHeight == 0 || (|board| % boxHeight == 0 && boxWidth == 0)
    ensures r.Ok? ==>
              && Valid(r.value)
              && r.value.board == board && r.value.symbols == symbols
              && r.value.height == |board| && r.value.width == |board[0]| && r.value.depth == |symbols|
              && r.value.boxHeight == boxHeight && r.value.boxWidth == boxWidth
  {
    var height, width := |board|, |board[0]|;
    if boxHeight == 0 then Err(ZeroDivisionError)
    else if height % boxHeight != 0 then Err(ValueError)
    else if boxWidth == 0 then Err(ZeroDivisionError)
    else if width % boxWidth != 0 then Err(ValueError)
    else Ok(Sudoku(board, symbols, height, width, |symbols|, boxHeight, boxWidth))
  }

  /** The constructor's defaults: symbols 1 to 9 and 3 x 3 boxes. */
  function NewClassic(board: seq<seq<int>>): (r: Result<Sudoku>)
    requires Rectangular(board)
    ensures |board| == 9 && |board[0]| == 9 ==> r.Ok? && Square(r.value) && r.value.depth == 9
  {
    NewSudoku(board, [1, 2, 3, 4, 5, 6, 7, 8, 9], 3, 3)
  }

  /** Python's `range(lo, hi)`. */
  function Range(lo: int, hi: int): (r: seq<int>)
    decreases hi - lo
    ensures |r| == if lo <= hi then hi - lo else 0
    ensures forall i :: 0 <= i < |r| ==> r[i] == lo + i
    ensures forall x :: x in r <==> lo <= x < hi
  {
    if lo >= hi then [] else [lo] + Range(lo + 1, hi)
  }

  predicate Increasing(xs: seq<int>)
  {
    forall i, j :: 0 <= i < j < |xs| ==> xs[i] < xs[j]
  }

  /** Lexicographic (row-major) order on positions. */
  predicate Before(p: Pos, q: Pos)
  {
    p.0 < q.0 || (p.0 == q.0 && p.1 < q.1)
  }

  /** Strictly increasing in row-major order; hence every position occurs at most once. */
  predicate RowMajor(ps: seq<Pos>)
  {
    forall i, j :: 0 <= i < j < |ps| ==> Before(ps[i], ps[j])
  }

  lemma RowMajorDistinct(ps: seq<Pos>, i: int, j: int)
    requires RowMajor(ps) && 0 <= i < |ps| && 0 <= j < |ps| && i != j
    ensures ps[i] != ps[j]
  {
    if i < j {
      assert Before(ps[i], ps[j]);
    } else {
      assert Before(ps[j], ps[i]);
    }
  }

  /** `product([x], ys)` */
  function Pairs(x: int, ys: seq<int>): (r: seq<Pos>)
    ensures |r| == |ys|
    ensures forall j :: 0 <= j < |ys| ==> r[j] == (x, ys[j])
  {
    seq(|ys|, j requires 0 <= j < |ys| => (x, ys[j]))
  }

  /** `itertools.product(xs, ys)`: the last coordinate varies fastest. */
  function Product(xs: seq<int>, ys: seq<int>): (r: seq<Pos>)
    ensures |r| == |xs| * |ys|
    ensures forall p :: p in r <==> p.0 in xs && p.1 in ys
  {
    if xs == [] then []
    else
      var head, tail := Pairs(xs[0], ys), Product(xs[1..], ys);
      assert forall p :: p in head <==> p.0 == xs[0] && p.1 in ys by {
        forall p: Pos | p.0 == xs[0] && p.1 in ys ensures p in head {
          var j :| 0 <= j < |ys| && ys[j] == p.1;
          assert head[j] == p;
        }
      }
      head + tail
  }

  /** The product of two increasing lists is in row-major order. */
  lemma {:induction false} ProductRowMajor(xs: seq<int>, ys: seq<int>)
    requires Increasing(xs) && Increasing(ys)
    ensures RowMajor(Product(xs, ys))
  {
    if xs != [] {
      var head, tail := Pairs(xs[0], ys), Product(xs[1..], ys);
      assert Product(xs, ys) == head + tail;
      ProductRowMajor(xs[1..], ys);
      assert forall p :: p in tail ==> xs[0] < p.0;
      forall i, j | 0 <= i < j < |head + tail|
        ensures Before((head + tail)[i], (head + tail)[j])
      {
        if j >= |head| {
          if i >= |head| {
            assert Before(tail[i - |head|], tail[j - |head|]);
          } else {
            assert tail[j - |head|] in tail;
          }
        }
      }
    }
  }

  /** `positions()`: every position of the board, in row-major order. */
  function Positions(s: Sudoku): (r: seq<Pos>)
    ensures |r| == s.height * s.width
    ensures forall p :: p in r <==> InBoard(s, p)
    ensures RowMajor(r)
  {
    ProductRowMajor(Range(0, s.height), Range(0, s.width));
    Product(Range(0, s.height), Range(0, s.width))
  }

  /**
   `get_connected_positions`, as written: the "row" list runs over `range(width)` and the
   "column" list over `range(height)`, and because `-` binds tighter than `|` only the box
   loses `position`, so `position` itself is in the result.
   */
  function Connected(s: Sudoku, p: Pos): (r: set<Pos>)
    requires Valid(s)
    ensures InBoard(s, p) ==> p in r
    ensures Square(s) && InBoard(s, p) ==> forall q :: q in r ==> InBoard(s, q)
  {
    var row := set i | 0 <= i < s.width :: (i, p.1);
    var col := set j | 0 <= j < s.height :: (p.0, j);
    assert InBoard(s, p) ==> p in row + col by {
      if InBoard(s, p) && p.0 >= s.width {
        assert p == (p.0, p.1);
        assert p in col;
      }
    }
    var boxTop := p.0 - p.0 % s.boxHeight;
    var boxLeft := p.1 - p.1 % s.boxWidth;
    var box := Box(boxTop, boxLeft, s.boxHeight, s.boxWidth);
    BoxInside(s.height, s.boxHeight, p.0);
    BoxInside(s.width, s.boxWidth, p.1);
    row + col + (box - {p})
  }

  /** `set(product(range(top, top + h), range(left, left + w)))` */
  function Box(top: int, left: int, h: nat, w: nat): (r: set<Pos>)
    ensures forall q :: q in r <==> top <= q.0 < top + h && left <= q.1 < left + w
  {
    var cells := Product(Range(top, top + h), Range(left, left + w));
    set q | q in cells
  }

  lemma MulLe(a: int, c: int, b: nat)
    requires a <= c
    ensures a * b <= c * b
  {
  }

  /** `t` is the quotient of `x` by `b` when `x` lies in `[t * b, t * b + b)`. */
  lemma QuotientUnique(x: int, b: nat, t: int)
    requires b > 0 && t * b <= x < t * b + b
    ensures x / b == t
  {
    var u := x / b;
    if u < t {
      MulLe(u + 1, t, b);
    } else if u > t {
      MulLe(t + 1, u, b);
    }
  }

  /** A box that starts at `x - x % b` ends inside a board whose size `b` divides. */
  lemma BoxInside(n: nat, b: nat, x: int)
    requires b > 0 && n % b == 0
    ensures 0 <= x < n ==> 0 <= x - x % b && x - x % b + b <= n
  {
    if 0 <= x < n {
      var t, m := x / b, n / b;
      if t >= m {
        MulLe(m, t, b);
      }
      MulLe(t + 1, m, b);
    }
  }

  /** `x` lies in the box starting at `y - y % b` exactly when both have the same quotient by `b`. */
  lemma SameBlock(b: nat, x: int, y: int)
    requires b > 0
    ensures (y - y % b <= x < y - y % b + b) <==> x / b == y / b
  {
    var t := y / b;
    if y - y % b <= x < y - y % b + b {
      QuotientUnique(x, b, t);
    }
  }

  /**
   On a square board the connected set of a position is exactly the positions of the
   board that share its row, its column or its box, the position itself included.
   */
  lemma {:induction false} ConnectedArePeers(s: Sudoku, p: Pos)
    requires Square(s) && InBoard(s, p)
    ensures forall q :: q in Connected(s, p) <==> InBoard(s, q) && Peers(s, p, q)
  {
    forall q
      ensures q in Connected(s, p) <==> InBoard(s, q) && Peers(s, p, q)
    {
      if InBoard(s, q) {
        SameBlock(s.boxHeight, q.0, p.0);
        SameBlock(s.boxWidth, q.1, p.1);
      }
    }
  }

  /** Being connected is symmetric between positions of a square board. */
  lemma ConnectedSymmetric(s: Sudoku, p: Pos, q: Pos)
    requires Square(s) && InBoard(s, p) && InBoard(s, q)
    ensures q in Connected(s, p) <==> p in Connected(s, q)
  {
    ConnectedArePeers(s, p);
    ConnectedArePeers(s, q);
  }

  /** `set(range(lo, hi))` */
  function Interval(lo: int, hi: int): (r: set<int>)
    decreases hi - lo
    ensures forall x :: x in r <==> lo <= x < hi
    ensures |r| == if lo <= hi then hi - lo else 0
  {
    if lo >= hi then {} else {lo} + Interval(lo + 1, hi)
  }

  /** `set(product(rows, cols))` */
  function PairSet(rows: set<int>, cols: set<int>): (r: set<Pos>)
    ensures forall q :: q in r <==> q.0 in rows && q.1 in cols
  {
    var r := set x, y | x in rows && y in cols :: (x, y);
    assert forall x, y :: x in rows && y in cols ==> (x, y) in r;
    r
  }

  /** The positions of one row over a set of columns are as many as the columns. */
  lemma {:induction false} LineSize(row: int, cols: set<int>)
    ensures |PairSet({row}, cols)| == |cols|
    decreases cols
  {
    if |cols| > 0 {
      assert (forall c :: c !in cols) ==> cols == {};
      var c0 :| c0 in cols;
      LineSize(row, cols - {c0});
      assert PairSet({row}, cols) == PairSet({row}, cols - {c0}) + {(row, c0)};
    }
  }

  lemma MulStep(a: int, b: int)
    ensures (a + 1) * b == a * b + b
  {
  }

  /** A product of sets has as many pairs as the product of their sizes. */
  lemma {:induction false} PairSetSize(rows: set<int>, cols: set<int>)
    ensures |PairSet(rows, cols)| == |rows| * |cols|
    decreases rows
  {
    if |rows| > 0 {
      assert (forall r :: r !in rows) ==> rows == {};
      var r0 :| r0 in rows;
      var others := rows - {r0};
      assert rows == others + {r0};
      assert |others| == |rows| - 1;
      PairSetSize(others, cols);
      LineSize(r0, cols);
      var rest, line := PairSet(others, cols), PairSet({r0}, cols);
      assert PairSet(rows, cols) == rest + line;
      assert rest * line == {};
      assert |PairSet(rows, cols)| == |others| * |cols| + |cols|;
      MulStep(|others|, |cols|);
    }
  }

  /** The positions of one column over a set of rows are as many as the rows. */
  lemma {:induction false} ColumnSize(rows: set<int>, col: int)
    ensures |PairSet(rows, {col})| == |rows|
    decreases rows
  {
    if |rows| > 0 {
      assert (forall r :: r !in rows) ==> rows == {};
      var r0 :| r0 in rows;
      ColumnSize(rows - {r0}, col);
      assert PairSet(rows, {col}) == PairSet(rows - {r0}, {col}) + {(r0, col)};
    }
  }

  lemma BoxSize(rows: set<int>, cols: set<int>, h: int, w: int)
    requires |rows| == h - 1 && |cols| == w - 1
    ensures |PairSet(rows, cols)| == (h - 1) * (w - 1)
  {
    PairSetSize(rows, cols);
  }

  /** `x` lies in the block of `b` that starts at `x - x % b`. */
  lemma ModBounds(x: int, b: int)
    requires b > 0
    ensures x - x % b <= x < x - x % b + b
  {
  }

  /** Removing a member takes one element off a set's size. */
  lemma SizeWithout(xs: set<int>, x: int)
    requires x in xs
    ensures |xs - {x}| == |xs| - 1
  {
    assert xs == (xs - {x}) + {x};
  }

  /**
   The column of `p` over `lines`, the rest of `p`'s row over `lines`, and the cells of the
   block `bandRows x bandCols` in neither.
   */
  function ConnectedParts(p: Pos, lines: set<int>, bandRows: set<int>, bandCols: set<int>): set<Pos>
  {
    PairSet(lines, {p.1}) + PairSet({p.0}, lines - {p.1}) + PairSet(bandRows - {p.0}, bandCols - {p.1})
  }

  /** The three parts are disjoint, so their sizes add up. */
  lemma PartsSize(p: Pos, lines: set<int>, bandRows: set<int>, bandCols: set<int>, h: int, w: int)
    requires p.1 in lines && p.0 in bandRows && p.1 in bandCols
    requires |bandRows| == h && |bandCols| == w
    ensures |ConnectedParts(p, lines, bandRows, bandCols)| == 2 * |lines| - 1 + (h - 1) * (w - 1)
  {
    var column, row := PairSet(lines, {p.1}), PairSet({p.0}, lines - {p.1});
    var box := PairSet(bandRows - {p.0}, bandCols - {p.1});
    SizeWithout(lines, p.1);
    SizeWithout(bandRows, p.0);
    SizeWithout(bandCols, p.1);
    ColumnSize(lines, p.1);
    LineSize(p.0, lines - {p.1});
    BoxSize(bandRows - {p.0}, bandCols - {p.1}, h, w);
    assert column * row == {};
    assert (column + row) * box == {};
  }

  /** Membership in the three parts, coordinate by coordinate. */
  lemma PartsMember(p: Pos, lines: set<int>, bandRows: set<int>, bandCols: set<int>, q: Pos)
    ensures q in ConnectedParts(p, lines, bandRows, bandCols) <==>
              || (q.0 in lines && q.1 == p.1)
              || (q.0 == p.0 && q.1 in lines && q.1 != p.1)
              || (q.0 in bandRows && q.0 != p.0 && q.1 in bandCols && q.1 != p.1)
  {
  }

  lemma ConnectedSplitAt(s: Sudoku, p: Pos, top: int, left: int, q: Pos)
    requires Square(s) && InBoard(s, p)
    requires top == p.0 - p.0 % s.boxHeight && left == p.1 - p.1 % s.boxWidth
    ensures q in Connected(s, p) <==>
              q in ConnectedParts(p, Interval(0, s.height), Interval(top, top + s.boxHeight), Interval(left, left + s.boxWidth))
  {
    PartsMember(p, Interval(0, s.height), Interval(top, top + s.boxHeight), Interval(left, left + s.boxWidth), q);
    ConnectedArePeers(s, p);
    SameBlock(s.boxHeight, q.0, p.0);
    SameBlock(s.boxWidth, q.1, p.1);
    BoxInside(s.height, s.boxHeight, p.0);
    BoxInside(s.width, s.boxWidth, p.1);
  }

  /**
   On a square board the connected set of `p` splits into three disjoint parts: its column,
   the rest of its row, and the cells of its box (at `(top, left)`) in neither.
   */
  lemma ConnectedSplit(s: Sudoku, p: Pos, top: int, left: int)
    requires Square(s) && InBoard(s, p)
    requires top == p.0 - p.0 % s.boxHeight && left == p.1 - p.1 % s.boxWidth
    ensures Connected(s, p) ==
              ConnectedParts(p, Interval(0, s.height), Interval(top, top + s.boxHeight), Interval(left, left + s.boxWidth))
  {
    var parts := ConnectedParts(p, Interval(0, s.height), Interval(top, top + s.boxHeight), Interval(left, left + s.boxWidth));
    forall q
      ensures q in Connected(s, p) <==> q in parts
    {
      ConnectedSplitAt(s, p, top, left, q);
    }
  }

  /**
   On an `n x n` board, with `p` inside the box at `(top, left)`, the three parts hold `2n - 1`
   cells in `p`'s row and column and `(boxHeight - 1) * (boxWidth - 1)` more in the box.
   */
  lemma PartsCount(n: int, p: Pos, top: int, left: int, boxHeight: int, boxWidth: int)
    requires 0 <= p.0 < n && 0 <= p.1 < n
    requires top <= p.0 < top + boxHeight && left <= p.1 < left + boxWidth
    ensures |ConnectedParts(p, Interval(0, n), Interval(top, top + boxHeight), Interval(left, left + boxWidth))|
            == 2 * n - 1 + (boxHeight - 1) * (boxWidth - 1)
  {
    PartsSize(p, Interval(0, n), Interval(top, top + boxHeight), Interval(left, left + boxWidth), boxHeight, boxWidth);
  }

  /** The count of `ConnectedCount`, for the box origin `(top, left)` of `p`. */
  lemma ConnectedCountFrom(s: Sudoku, p: Pos, top: int, left: int)
    requires Square(s) && InBoard(s, p)
    requires top == p.0 - p.0 % s.boxHeight && left == p.1 - p.1 % s.boxWidth
    requires top <= p.0 < top + s.boxHeight && left <= p.1 < left + s.boxWidth
    ensures |Connected(s, p)| == 2 * s.height - 1 + (s.boxHeight - 1) * (s.boxWidth - 1)
  {
    PartsCount(s.height, p, top, left, s.boxHeight, s.boxWidth);
    ConnectedSplit(s, p, top, left);
  }

  /**
   On a square `n x n` board the connected set of a position has `2n - 1` cells in its row
   and column (the position counted once) and `(boxHeight - 1) * (boxWidth - 1)` more in its
   box.
   */
  lemma ConnectedCount(s: Sudoku, p: Pos)
    requires Square(s) && InBoard(s, p)
    ensures |Connected(s, p)| == 2 * s.height - 1 + (s.boxHeight - 1) * (s.boxWidth - 1)
  {
    var top, left := p.0 - p.0 % s.boxHeight, p.1 - p.1 % s.boxWidth;
    ModBounds(p.0, s.boxHeight);
    ModBounds(p.1, s.boxWidth);
    ConnectedCountFrom(s, p, top, left);
  }

  /** The classic board: every connected set has 21 cells (20 peers and the position). */
  lemma ClassicConnectedCount(s: Sudoku, p: Pos)
    requires Square(s) && s.height == 9 && s.boxHeight == 3 && s.boxWidth == 3
    requires InBoard(s, p)
    ensures |Connected(s, p)| == 21
  {
    ConnectedCount(s, p);
  }

  /** No clash between `p` and the positions connected to it (the inner loop of `is_valid`). */
  predicate NoClashAt(s: Sudoku, p: Pos)
    requires Square(s) && InBoard(s, p)
  {
    forall c | c in Connected(s, p) :: !(At(s, c) == At(s, p) && p != c)
  }

  /** The outer loop of `is_valid`: the first clashing position ends the scan. */
  function NoClashIn(s: Sudoku, ps: seq<Pos>): (r: bool)
    requires Square(s) && forall p :: p in ps ==> InBoard(s, p)
    ensures r <==> forall p :: p in ps ==> NoClashAt(s, p)
  {
    if ps == [] then true
    else NoClashAt(s, ps[0]) && NoClashIn(s, ps[1..])
  }

  /**
   `is_valid`: no two different positions that share a row, a column or a box hold equal
   values. Empty cells hold values too, so two connected empty cells are a clash.
   */
  function IsValid(s: Sudoku): (r: bool)
    requires Square(s)
    ensures r <==> forall p, q ::
      InBoard(s, p) && InBoard(s, q) && p != q && Peers(s, p, q) ==> At(s, p) != At(s, q)
  {
    var result := NoClashIn(s, Positions(s));
    assert result <==> forall p :: InBoard(s, p) ==> NoClashAt(s, p);
    assert forall p :: InBoard(s, p) ==> forall q ::
      q in Connected(s, p) <==> InBoard(s, q) && Peers(s, p, q) by {
      forall p | InBoard(s, p) {
        ConnectedArePeers(s, p);
      }
    }
    result
  }
}
