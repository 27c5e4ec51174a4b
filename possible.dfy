/**
 The possibility map of solve.py: `create_possible_map`, `chunk_possible_map`,
 `find_n_possible`, and the candidate counts that `solve` sums.

 The numpy array `slate[row, column, i]` is a sequence of rows of cells, each cell a
 sequence of `depth` flags; flag `i` is set while `symbols[i]` is still possible there.
 */
module Possibilities {
  import opened Board

  type Entry = seq<bool>
  type PMap = seq<seq<Entry>>

  datatype Option<T> = None | Some(value: T)

  /** The array shape `(height, width, depth)`. */
  predicate Shaped(pm: PMap, h: nat, w: nat, d: nat)
  {
    && |pm| == h
    && (forall r :: 0 <= r < h ==> |pm[r]| == w)
    && (forall r, c :: 0 <= r < h && 0 <= c < w ==> |pm[r][c]| == d)
  }

  predicate InMap(pm: PMap, p: Pos)
  {
    0 <= p.0 < |pm| && 0 <= p.1 < |pm[p.0]|
  }

  /** `possible_map[pos]` */
  function Cell(pm: PMap, p: Pos): Entry
    requires InMap(pm, p)
  {
    pm[p.0][p.1]
  }

  /** `pm` with the entry at `p` replaced. */
  function SetCell(pm: PMap, p: Pos, e: Entry): (r: PMap)
    requires InMap(pm, p)
    ensures |r| == |pm| && forall i :: 0 <= i < |r| ==> |r[i]| == |pm[i]|
    ensures forall q :: InMap(pm, q) ==> Cell(r, q) == if q == p then e else Cell(pm, q)
  {
    pm[p.0 := pm[p.0][p.1 := e]]
  }

  /** Two maps of one shape that agree on every cell are equal. */
  lemma SameMap(a: PMap, b: PMap, h: nat, w: nat, d: nat)
    requires Shaped(a, h, w, d) && Shaped(b, h, w, d)
    requires forall p: Pos :: 0 <= p.0 < h && 0 <= p.1 < w ==> Cell(a, p) == Cell(b, p)
    ensures a == b
  {
    forall r | 0 <= r < h
      ensures a[r] == b[r]
    {
      forall c | 0 <= c < w
        ensures a[r][c] == b[r][c]
      {
        assert Cell(a, (r, c)) == Cell(b, (r, c));
      }
    }
  }

  /** `sum(possible_map[pos])`: the number of candidates left in one cell. */
  function Count(e: Entry): (n: nat)
    ensures n <= |e|
    ensures n == 0 <==> forall i :: 0 <= i < |e| ==> !e[i]
    ensures n == |e| <==> forall i :: 0 <= i < |e| ==> e[i]
  {
    if e == [] then 0
    else (if e[|e| - 1] then 1 else 0) + Count(e[..|e| - 1])
  }

  function RowTotal(row: seq<Entry>): nat
  {
    if row == [] then 0 else Count(row[0]) + RowTotal(row[1..])
  }

  /** `possible_map.sum()`: the number of candidates left on the whole board. */
  function Total(pm: PMap): (t: nat)
    ensures forall r :: 0 <= r < |pm| ==> RowTotal(pm[r]) <= t
  {
    if pm == [] then 0
    else
      assert forall r :: 0 < r < |pm| ==> pm[r] == pm[1..][r - 1];
      RowTotal(pm[0]) + Total(pm[1..])
  }

  lemma {:induction false} RowTotalZero(row: seq<Entry>)
    ensures RowTotal(row) == 0 <==> forall c :: 0 <= c < |row| ==> Count(row[c]) == 0
  {
    if row != [] {
      RowTotalZero(row[1..]);
      assert forall c :: 1 <= c < |row| ==> row[c] == row[1..][c - 1];
    }
  }

  /** The board total is 0 exactly when no cell has a candidate left. */
  lemma {:induction false} TotalZero(pm: PMap)
    ensures Total(pm) == 0 <==>
              forall r, c :: 0 <= r < |pm| && 0 <= c < |pm[r]| ==> Count(pm[r][c]) == 0
  {
    if pm != [] {
      TotalZero(pm[1..]);
      RowTotalZero(pm[0]);
      assert forall r :: 1 <= r < |pm| ==> pm[r] == pm[1..][r - 1];
    }
  }

  /** Every flag set in `e` is set in `f` at the same index; the lengths agree. */
  ghost predicate EntryNarrower(e: Entry, f: Entry)
  {
    |e| == |f| && forall i :: 0 <= i < |e| ==> (e[i] ==> f[i])
  }

  /** Row `x` is cell by cell narrower than row `y`. */
  ghost predicate RowNarrower(x: seq<Entry>, y: seq<Entry>)
  {
    |x| == |y| && forall c :: 0 <= c < |x| ==> EntryNarrower(x[c], y[c])
  }

  /** Every flag set in `a` is set in `b` at the same place; the shapes agree. */
  ghost predicate Narrower(a: PMap, b: PMap)
  {
    |a| == |b| && forall r :: 0 <= r < |a| ==> RowNarrower(a[r], b[r])
  }

  lemma {:induction false} CountMonotone(a: Entry, b: Entry)
    requires EntryNarrower(a, b)
    ensures Count(a) <= Count(b)
  {
    if a != [] {
      CountMonotone(a[..|a| - 1], b[..|b| - 1]);
    }
  }

  lemma {:induction false} RowTotalMonotone(a: seq<Entry>, b: seq<Entry>)
    requires RowNarrower(a, b)
    ensures RowTotal(a) <= RowTotal(b)
  {
    if a != [] {
      CountMonotone(a[0], b[0]);
      RowTotalMonotone(a[1..], b[1..]);
    }
  }

  /** Narrowing a map never raises its candidate total. */
  lemma {:induction false} TotalMonotone(a: PMap, b: PMap)
    requires Narrower(a, b)
    ensures Total(a) <= Total(b)
  {
    if a != [] {
      RowTotalMonotone(a[0], b[0]);
      TotalMonotone(a[1..], b[1..]);
    }
  }

  lemma NarrowerReflexive(a: PMap)
    ensures Narrower(a, a)
  {
  }

  lemma NarrowerTransitive(a: PMap, b: PMap, c: PMap)
    requires Narrower(a, b) && Narrower(b, c)
    ensures Narrower(a, c)
  {
    forall r | 0 <= r < |a| ensures RowNarrower(a[r], c[r]) {
      forall col | 0 <= col < |a[r]| ensures EntryNarrower(a[r][col], c[r][col]) {
        assert EntryNarrower(a[r][col], b[r][col]) && EntryNarrower(b[r][col], c[r][col]);
      }
    }
  }

  /** `symbols.index(v)`: the first position of `v`. */
  function SymbolIndex(symbols: seq<int>, v: int): (i: nat)
    requires v in symbols
    ensures i < |symbols| && symbols[i] == v
    ensures forall j :: 0 <= j < i ==> symbols[j] != v
  {
    if symbols[0] == v then 0 else 1 + SymbolIndex(symbols[1..], v)
  }

  /** The cell `q` holds the symbol whose flag is `i`. */
  predicate Excludes(s: Sudoku, q: Pos, i: int)
    requires Valid(s)
  {
    InBoard(s, q) && At(s, q) in s.symbols && SymbolIndex(s.symbols, At(s, q)) == i
  }

  /** Some cell of `qs` holds the symbol whose flag is `i`. */
  predicate Blocked(s: Sudoku, qs: set<Pos>, i: int)
    requires Valid(s)
  {
    exists q :: q in qs && Excludes(s, q, i)
  }

  /** Flag `i` of cell `p` in a fresh map: the cell is empty and no connected cell holds that symbol. */
  predicate Possible(s: Sudoku, p: Pos, i: int)
    requires Square(s) && InBoard(s, p)
  {
    At(s, p) !in s.symbols && !Blocked(s, Connected(s, p), i)
  }

  function FreshEntry(s: Sudoku, p: Pos): (e: Entry)
    requires Square(s) && InBoard(s, p)
    ensures |e| == s.depth
    ensures At(s, p) in s.symbols ==> Count(e) == 0
  {
    seq(s.depth, i => Possible(s, p, i))
  }

  /** The map `create_possible_map` builds from the board alone. */
  function FreshMap(s: Sudoku): (pm: PMap)
    requires Square(s)
    ensures Shaped(pm, s.height, s.width, s.depth)
    ensures forall p :: InBoard(s, p) ==> Cell(pm, p) == FreshEntry(s, p)
  {
    seq(s.height, r requires 0 <= r < s.height =>
      seq(s.width, c requires 0 <= c < s.width => FreshEntry(s, (r, c))))
  }

  predicate DistinctSymbols(symbols: seq<int>)
  {
    forall i, j :: 0 <= i < j < |symbols| ==> symbols[i] != symbols[j]
  }

  /**
   With distinct symbols, flag `i` of a fresh entry is set exactly when the cell is empty
   and no cell in its row, its column or its box holds `symbols[i]`.
   */
  lemma FreshMapCharacterised(s: Sudoku, p: Pos, i: int)
    requires Square(s) && DistinctSymbols(s.symbols)
    requires InBoard(s, p) && 0 <= i < s.depth
    ensures Cell(FreshMap(s), p)[i] <==>
              && At(s, p) !in s.symbols
              && forall q :: InBoard(s, q) && Peers(s, p, q) ==> At(s, q) != s.symbols[i]
  {
    ConnectedArePeers(s, p);
    FirstIndexOfDistinct(s.symbols, i);
    assert Cell(FreshMap(s), p)[i] == Possible(s, p, i);
    if At(s, p) !in s.symbols {
      if Blocked(s, Connected(s, p), i) {
        var q :| q in Connected(s, p) && Excludes(s, q, i);
        assert InBoard(s, q) && Peers(s, p, q) && At(s, q) == s.symbols[i];
      } else {
        forall q | InBoard(s, q) && Peers(s, p, q)
          ensures At(s, q) != s.symbols[i]
        {
          assert q in Connected(s, p);
          assert !Excludes(s, q, i);
        }
      }
    }
  }

  /** With distinct symbols `.index` finds each symbol at its own position. */
  lemma FirstIndexOfDistinct(symbols: seq<int>, i: int)
    requires DistinctSymbols(symbols) && 0 <= i < |symbols|
    ensures SymbolIndex(symbols, symbols[i]) == i
  {
  }

  /** The board with the value at `q` replaced by `v`. */
  function Put(s: Sudoku, q: Pos, v: int): (t: Sudoku)
    requires Valid(s) && InBoard(s, q)
    ensures Valid(t) && t.height == s.height && t.width == s.width && t.depth == s.depth
    ensures t.symbols == s.symbols && t.boxHeight == s.boxHeight && t.boxWidth == s.boxWidth
    ensures forall p :: InBoard(s, p) ==> At(t, p) == if p == q then v else At(s, p)
  {
    s.(board := s.board[q.0 := s.board[q.0][q.1 := v]])
  }

  /**
   Values outside `symbols` constrain nothing: replacing one such value by another
   leaves the fresh map as it was.
   */
  lemma NonSymbolsConstrainNothing(s: Sudoku, q: Pos, v: int)
    requires Square(s) && InBoard(s, q)
    requires At(s, q) !in s.symbols && v !in s.symbols
    ensures FreshMap(Put(s, q, v)) == FreshMap(s)
  {
    var t := Put(s, q, v);
    forall p | InBoard(s, p)
      ensures Cell(FreshMap(t), p) == Cell(FreshMap(s), p)
    {
      SameFreshEntry(s, q, v, p);
    }
    SameMap(FreshMap(t), FreshMap(s), s.height, s.width, s.depth);
  }

  lemma SameFreshEntry(s: Sudoku, q: Pos, v: int, p: Pos)
    requires Square(s) && InBoard(s, q) && InBoard(s, p)
    requires At(s, q) !in s.symbols && v !in s.symbols
    ensures FreshEntry(Put(s, q, v), p) == FreshEntry(s, p)
  {
    var t := Put(s, q, v);
    SameConnected(s, t, p);
    var connected := Connected(s, p);
    assert At(t, p) in s.symbols <==> At(s, p) in s.symbols;
    forall i | 0 <= i < s.depth
      ensures Possible(t, p, i) == Possible(s, p, i)
    {
      BlockedUnchanged(s, q, v, connected, i);
    }
  }

  lemma BlockedUnchanged(s: Sudoku, q: Pos, v: int, qs: set<Pos>, i: int)
    requires Valid(s) && InBoard(s, q)
    requires At(s, q) !in s.symbols && v !in s.symbols
    ensures Blocked(Put(s, q, v), qs, i) == Blocked(s, qs, i)
  {
    forall c ensures Excludes(Put(s, q, v), c, i) == Excludes(s, c, i) {
    }
  }

  /** The connected set depends on the board's shape, not on its values. */
  lemma SameConnected(s: Sudoku, t: Sudoku, p: Pos)
    requires Square(s) && Square(t) && InBoard(s, p)
    requires t.height == s.height && t.boxHeight == s.boxHeight && t.boxWidth == s.boxWidth
    ensures Connected(t, p) == Connected(s, p)
  {
    ConnectedArePeers(s, p);
    ConnectedArePeers(t, p);
  }

  /** Clearing the flag of the symbol `c` holds, if any, clears exactly the flag `c` excludes. */
  lemma ClearedFlag(s: Sudoku, e: Entry, c: Pos, i: int)
    requires Valid(s) && InBoard(s, c) && |e| == s.depth && 0 <= i < s.depth
    ensures var cleared := if At(s, c) in s.symbols then e[SymbolIndex(s.symbols, At(s, c)) := false] else e;
            cleared[i] == (e[i] && !Excludes(s, c, i))
  {
  }

  lemma BlockedAdd(s: Sudoku, done: set<Pos>, c: Pos, i: int)
    requires Valid(s)
    ensures Blocked(s, done + {c}, i) <==> Blocked(s, done, i) || Excludes(s, c, i)
  {
    if Excludes(s, c, i) {
      assert c in done + {c};
    }
  }

  /**
   `create_possible_map`: start from all ones, then fill in every position in row-major
   order.
   */
  method CreatePossibleMap(s: Sudoku) returns (slate: PMap)
    requires Square(s)
    ensures slate == FreshMap(s)
  {
    var ones := seq(s.depth, _ => true);
    slate := seq(s.height, _ => seq(s.width, _ => ones));
    var positions := Positions(s);
    for n := 0 to |positions|
      invariant Shaped(slate, s.height, s.width, s.depth)
      invariant FilledUpTo(s, slate, positions, n, ones)
    {
      var pos := positions[n];
      ghost var before := slate;
      assert Cell(slate, pos) == ones;
      slate := FillPosition(s, slate, pos);
      FillStep(s, positions, n, ones, before, slate);
    }
    FilledAll(s, slate, ones);
  }

  /** The first `n` of `positions` hold their fresh entries; the others still hold `ones`. */
  ghost predicate FilledUpTo(s: Sudoku, slate: PMap, positions: seq<Pos>, n: int, ones: Entry)
    requires Square(s) && Shaped(slate, s.height, s.width, s.depth)
    requires forall j {:trigger positions[j]} :: 0 <= j < |positions| ==> InBoard(s, positions[j])
  {
    forall j :: 0 <= j < |positions| ==>
      assert InBoard(s, positions[j]); assert InMap(slate, positions[j]);
      Cell(slate, positions[j]) == if j < n then FreshEntry(s, positions[j]) else ones
  }

  /** Filling position `n`, and no other cell, extends `FilledUpTo` by one position. */
  lemma FillStep(s: Sudoku, positions: seq<Pos>, n: nat, ones: Entry, before: PMap, after: PMap)
    requires Square(s) && RowMajor(positions) && n < |positions|
    requires forall j {:trigger positions[j]} :: 0 <= j < |positions| ==> InBoard(s, positions[j])
    requires Shaped(before, s.height, s.width, s.depth) && Shaped(after, s.height, s.width, s.depth)
    requires FilledUpTo(s, before, positions, n, ones)
    requires forall q :: InBoard(s, q) && q != positions[n] ==> Cell(after, q) == Cell(before, q)
    requires Cell(after, positions[n]) == FreshEntry(s, positions[n])
    ensures FilledUpTo(s, after, positions, n + 1, ones)
  {
    forall j | 0 <= j < |positions| && j != n
      ensures Cell(after, positions[j]) == Cell(before, positions[j])
    {
      RowMajorDistinct(positions, j, n);
    }
  }

  /** Once every position is filled, the map is the fresh map. */
  lemma FilledAll(s: Sudoku, slate: PMap, ones: Entry)
    requires Square(s) && Shaped(slate, s.height, s.width, s.depth)
    requires FilledUpTo(s, slate, Positions(s), |Positions(s)|, ones)
    ensures slate == FreshMap(s)
  {
    var positions := Positions(s);
    forall q | InBoard(s, q)
      ensures Cell(slate, q) == Cell(FreshMap(s), q)
    {
      var j :| 0 <= j < |positions| && positions[j] == q;
    }
    SameMap(slate, FreshMap(s), s.height, s.width, s.depth);
  }

  /**
   The body of the loop of `create_possible_map` for one position, whose entry is still
   all ones: a filled cell gets all zeros; in an empty cell, each connected cell holding a
   symbol clears that symbol's flag.
   */
  method FillPosition(s: Sudoku, slate0: PMap, pos: Pos) returns (slate: PMap)
    requires Square(s) && InBoard(s, pos)
    requires Shaped(slate0, s.height, s.width, s.depth)
    requires forall i :: 0 <= i < s.depth ==> Cell(slate0, pos)[i]
    ensures Shaped(slate, s.height, s.width, s.depth)
    ensures forall q :: InBoard(s, q) && q != pos ==> Cell(slate, q) == Cell(slate0, q)
    ensures Cell(slate, pos) == FreshEntry(s, pos)
  {
    if At(s, pos) in s.symbols {
      slate := SetCell(slate0, pos, seq(s.depth, _ => false));
      SetCellShaped(slate0, pos, seq(s.depth, _ => false), s.height, s.width, s.depth);
      return;
    }
    slate := slate0;
    ghost var entry := Cell(slate0, pos);
    assert slate0[pos.0][pos.1 := entry] == slate0[pos.0];
    var connected := Connected(s, pos);
    var pending := connected;
    while pending != {}
      invariant pending <= connected
      invariant |entry| == s.depth && slate == SetCell(slate0, pos, entry)
      invariant forall i :: 0 <= i < s.depth ==> entry[i] == !Blocked(s, connected - pending, i)
      decreases pending
    {
      var connectedPos :| connectedPos in pending;
      slate, entry := ClearSymbol(s, slate0, slate, pos, connectedPos, connected - pending, entry);
      pending := pending - {connectedPos};
      assert connected - pending == (connected - (pending + {connectedPos})) + {connectedPos};
    }
    assert connected - pending == connected;
    UnblockedIsFresh(s, pos, entry);
    SetCellShaped(slate0, pos, entry, s.height, s.width, s.depth);
  }

  /**
   One iteration of the inner loop of `create_possible_map`: the symbol held at `connectedPos`,
   if any, is cleared from the entry at `pos`. If that entry excluded the symbols of `done`, it
   now excludes those of `connectedPos` too.
   */
  method ClearSymbol(s: Sudoku, ghost slate0: PMap, slate1: PMap, pos: Pos, connectedPos: Pos,
                     ghost done: set<Pos>, ghost entry1: Entry)
    returns (slate: PMap, ghost entry: Entry)
    requires Square(s) && InBoard(s, pos) && InBoard(s, connectedPos)
    requires InMap(slate0, pos) && |entry1| == s.depth && slate1 == SetCell(slate0, pos, entry1)
    requires forall i :: 0 <= i < s.depth ==> entry1[i] == !Blocked(s, done, i)
    ensures |entry| == s.depth && slate == SetCell(slate0, pos, entry)
    ensures forall i :: 0 <= i < s.depth ==> entry[i] == !Blocked(s, done + {connectedPos}, i)
  {
    slate, entry := slate1, entry1;
    var symbol := At(s, connectedPos);
    if symbol in s.symbols {
      var index := SymbolIndex(s.symbols, symbol);
      assert Cell(slate1, pos) == entry1;
      slate := SetCell(slate1, pos, Cell(slate1, pos)[index := false]);
      entry := entry1[index := false];
      SetCellTwice(slate0, pos, entry1, entry);
    }
    forall i | 0 <= i < s.depth
      ensures entry[i] == !Blocked(s, done + {connectedPos}, i)
    {
      ClearedFlag(s, entry1, connectedPos, i);
      BlockedAdd(s, done, connectedPos, i);
    }
  }

  /** Replacing one cell's entry by one of the same depth keeps the shape. */
  lemma SetCellShaped(pm: PMap, p: Pos, e: Entry, h: nat, w: nat, d: nat)
    requires Shaped(pm, h, w, d) && InMap(pm, p) && |e| == d
    ensures Shaped(SetCell(pm, p, e), h, w, d)
  {
    var r := SetCell(pm, p, e);
    forall i, j | 0 <= i < h && 0 <= j < w
      ensures |r[i][j]| == d
    {
      assert Cell(r, (i, j)) == r[i][j];
    }
  }

  /** Replacing a cell's entry twice keeps only the second. */
  lemma SetCellTwice(pm: PMap, p: Pos, e1: Entry, e2: Entry)
    requires InMap(pm, p)
    ensures SetCell(SetCell(pm, p, e1), p, e2) == SetCell(pm, p, e2)
  {
    assert SetCell(pm, p, e1)[p.0][p.1 := e2] == pm[p.0][p.1 := e2];
  }

  /** An empty cell's entry that excludes exactly the symbols of its connected cells is fresh. */
  lemma UnblockedIsFresh(s: Sudoku, pos: Pos, e: Entry)
    requires Square(s) && InBoard(s, pos) && At(s, pos) !in s.symbols && |e| == s.depth
    requires forall i :: 0 <= i < s.depth ==> e[i] == !Blocked(s, Connected(s, pos), i)
    ensures e == FreshEntry(s, pos)
  {
  }

  /** `tuple(map(int, entry))`: the entry as a tuple of 0s and 1s, the key of a chunk. */
  function Signature(e: Entry): (key: seq<int>)
    ensures |key| == |e|
    ensures forall i :: 0 <= i < |e| ==> (key[i] == 1 <==> e[i]) && (key[i] == 0 <==> !e[i])
  {
    seq(|e|, i requires 0 <= i < |e| => if e[i] then 1 else 0)
  }

  /** Equal signatures come from equal entries, so a chunk groups cells with identical entries. */
  lemma SignatureInjective(a: Entry, b: Entry)
    requires Signature(a) == Signature(b)
    ensures a == b
  {
    assert |a| == |b|;
    forall i | 0 <= i < |a| ensures a[i] == b[i] {
      assert Signature(a)[i] == Signature(b)[i];
    }
  }

  /**
   `chunks` partitions `cells`: each lies in the chunk keyed by its own signature, every
   member of a chunk is one of `cells` with that chunk's key as signature, and no chunk is
   empty.
   */
  ghost predicate Partitions(pm: PMap, cells: set<Pos>, chunks: map<seq<int>, set<Pos>>)
    requires forall p :: p in cells ==> InMap(pm, p)
  {
    && (forall p :: p in cells ==> Signature(Cell(pm, p)) in chunks && p in chunks[Signature(Cell(pm, p))])
    && (forall key, p :: key in chunks && p in chunks[key] ==> p in cells && Signature(Cell(pm, p)) == key)
    && (forall key :: key in chunks ==> chunks[key] != {})
  }

  /** Adding one cell to its signature's chunk (created empty first if missing) keeps the partition. */
  lemma PartitionsGrow(pm: PMap, cells: set<Pos>, chunks: map<seq<int>, set<Pos>>, p: Pos,
                       grown: map<seq<int>, set<Pos>>)
    requires forall q :: q in cells ==> InMap(pm, q)
    requires InMap(pm, p) && Partitions(pm, cells, chunks)
    requires var key := Signature(Cell(pm, p));
             grown == chunks[key := (if key in chunks then chunks[key] else {}) + {p}]
    ensures Partitions(pm, cells + {p}, grown)
  {
  }

  /** The set of all positions of the board. */
  function Cells(s: Sudoku): (cells: set<Pos>)
    ensures forall p :: p in cells <==> InBoard(s, p)
  {
    set p | p in Positions(s)
  }

  /**
   `chunk_possible_map`: the map of signature to the set of positions holding it, built
   from the given map or, when none is given, from a fresh one.
   */
  method ChunkPossibleMap(s: Sudoku, given: Option<PMap>) returns (chunks: map<seq<int>, set<Pos>>)
    requires Valid(s)
    requires given.None? ==> Square(s)
    requires given.Some? ==> Shaped(given.value, s.height, s.width, s.depth)
    ensures var pm := if given.Some? then given.value else FreshMap(s);
            Partitions(pm, Cells(s), chunks)
  {
    var possibleMap: PMap;
    if given.None? {
      possibleMap := CreatePossibleMap(s);
    } else {
      possibleMap := given.value;
    }
    chunks := ChunkMap(s, possibleMap);
  }

  /** The loop of `chunk_possible_map`, over the positions in row-major order. */
  method ChunkMap(s: Sudoku, possibleMap: PMap) returns (chunks: map<seq<int>, set<Pos>>)
    requires Valid(s) && Shaped(possibleMap, s.height, s.width, s.depth)
    ensures Partitions(possibleMap, Cells(s), chunks)
  {
    chunks := map[];
    var positions := Positions(s);
    ghost var seen: set<Pos> := {};
    for n := 0 to |positions|
      invariant forall j :: 0 <= j < n ==> positions[j] in seen
      invariant forall p :: p in seen ==> InBoard(s, p)
      invariant Partitions(possibleMap, seen, chunks)
    {
      var position := positions[n];
      var possibleValues := Signature(Cell(possibleMap, position));
      ghost var before := chunks;
      if possibleValues !in chunks {
        chunks := chunks[possibleValues := {}];
      }
      chunks := chunks[possibleValues := chunks[possibleValues] + {position}];
      PartitionsGrow(possibleMap, seen, before, position, chunks);
      seen := seen + {position};
    }
    AllPositionsSeen(s, seen);
  }

  lemma AllPositionsSeen(s: Sudoku, seen: set<Pos>)
    requires forall j :: 0 <= j < |Positions(s)| ==> Positions(s)[j] in seen
    requires forall p :: p in seen ==> InBoard(s, p)
    ensures seen == Cells(s)
  {
    forall p | InBoard(s, p) ensures p in seen {
      var j :| 0 <= j < |Positions(s)| && Positions(s)[j] == p;
    }
  }

  /** The cells of `ps` with exactly `n` candidates, in the order of `ps`. */
  function WithCount(pm: PMap, ps: seq<Pos>, n: int): (r: seq<Pos>)
    requires forall p :: p in ps ==> InMap(pm, p)
    ensures forall p :: p in r <==> p in ps && Count(Cell(pm, p)) == n
    ensures RowMajor(ps) ==> RowMajor(r)
  {
    if ps == [] then []
    else
      var rest := WithCount(pm, ps[1..], n);
      assert RowMajor(ps) ==> forall q :: q in rest ==> Before(ps[0], q);
      (if Count(Cell(pm, ps[0])) == n then [ps[0]] else []) + rest
  }

  lemma {:induction false} NoneWithCount(pm: PMap, ps: seq<Pos>, n: int)
    requires forall p :: p in ps ==> InMap(pm, p) && Count(Cell(pm, p)) != n
    ensures WithCount(pm, ps, n) == []
  {
    if ps != [] {
      NoneWithCount(pm, ps[1..], n);
    }
  }

  /**
   `find_n_possible`: every position with exactly `n` candidates, each once, in row-major
   order.
   */
  function FindNPossible(s: Sudoku, pm: PMap, n: int): (r: seq<Pos>)
    requires Valid(s) && Shaped(pm, s.height, s.width, s.depth)
    ensures forall p :: p in r <==> InBoard(s, p) && Count(Cell(pm, p)) == n
    ensures RowMajor(r)
  {
    WithCount(pm, Positions(s), n)
  }
}
