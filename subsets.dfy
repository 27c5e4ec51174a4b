/**
 The naked-subset pass of `Sudoku.solve` in solve.py.

 One pass computes a fresh possibility map and then, for k = 1, 2, 3, 4 in turn, groups
 the cells with exactly k candidates (each group is a seed plus the connected cells whose
 entry is identical to the seed's) and clears each group's candidates from every
 non-member connected to a member. The board is never written. Group size is never
 compared with k, and the grouping is star-shaped around the seed, as in the code.
 */
module NakedSubsets {
  import opened Board
  import opened Possibilities

  /** `is_similar(base, test)`: a similar cell has as many candidates as `base`. */
  predicate IsSimilar(pm: PMap, kMatches: seq<Pos>, base: Pos, test: Pos): (b: bool)
    requires InMap(pm, base) && InMap(pm, test)
    ensures b ==> test != base && Count(Cell(pm, test)) == Count(Cell(pm, base))
  {
    test in kMatches && Cell(pm, test) == Cell(pm, base) && test != base
  }

  /**
   The cells of `ps` connected to `seed` and similar to it, in the order of `ps`: the
   `filter` over the connected set, whose members are taken in row-major order.
   */
  function SimilarConnected(s: Sudoku, pm: PMap, kMatches: seq<Pos>, seed: Pos, ps: seq<Pos>): (r: seq<Pos>)
    requires Square(s) && Shaped(pm, s.height, s.width, s.depth) && InBoard(s, seed)
    requires forall p :: p in ps ==> InBoard(s, p)
    ensures forall q :: q in r <==>
              q in ps && q in Connected(s, seed) && IsSimilar(pm, kMatches, seed, q)
  {
    if ps == [] then []
    else
      var head := ps[0];
      (if head in Connected(s, seed) && IsSimilar(pm, kMatches, seed, head) then [head] else [])
      + SimilarConnected(s, pm, kMatches, seed, ps[1..])
  }

  /**
   `group`: the similar connected cells, then the seed appended. The first member is the
   one whose entry `solve` reads as `common_possible`.
   */
  function Group(s: Sudoku, pm: PMap, kMatches: seq<Pos>, seed: Pos): (g: seq<Pos>)
    requires Square(s) && Shaped(pm, s.height, s.width, s.depth) && InBoard(s, seed)
    ensures Members(s, g) && g[|g| - 1] == seed
  {
    SimilarConnected(s, pm, kMatches, seed, Positions(s)) + [seed]
  }

  /** A group is its seed together with exactly the connected cells similar to the seed. */
  lemma GroupExact(s: Sudoku, pm: PMap, kMatches: seq<Pos>, seed: Pos, q: Pos)
    requires Square(s) && Shaped(pm, s.height, s.width, s.depth) && InBoard(s, seed)
    requires InBoard(s, q)
    ensures q in Group(s, pm, kMatches, seed) <==>
              q == seed || (q in Connected(s, seed) && IsSimilar(pm, kMatches, seed, q))
  {
  }

  /** `flatten(groups)`: every member of every group, in order. */
  function Flatten(groups: seq<seq<Pos>>): (r: seq<Pos>)
    ensures forall p :: p in r <==> exists g :: g in groups && p in g
  {
    if groups == [] then []
    else
      var rest := Flatten(groups[..|groups| - 1]);
      assert forall g :: g in groups <==> g in groups[..|groups| - 1] || g == groups[|groups| - 1];
      rest + groups[|groups| - 1]
  }

  /** A non-empty group of cells on the board. */
  predicate Members(s: Sudoku, g: seq<Pos>)
  {
    g != [] && InBoard(s, g[0]) && forall q :: q in g ==> InBoard(s, q)
  }

  /** Every group is non-empty and lies on the board. */
  predicate OnBoard(s: Sudoku, groups: seq<seq<Pos>>)
  {
    forall g :: g in groups ==> Members(s, g)
  }

  /**
   The loop over `k_matches` that builds `groups`, from the seeds still to visit: a seed
   already in a group is skipped, any other seed starts a new group.
   */
  function Grouping(s: Sudoku, pm: PMap, kMatches: seq<Pos>, seeds: seq<Pos>, groups: seq<seq<Pos>>): (r: seq<seq<Pos>>)
    requires Square(s) && Shaped(pm, s.height, s.width, s.depth)
    requires forall p :: p in seeds ==> InBoard(s, p)
    requires OnBoard(s, groups)
    ensures OnBoard(s, r)
    decreases |seeds|
  {
    if seeds == [] then groups
    else Grouping(s, pm, kMatches, seeds[1..], Extend(s, pm, kMatches, seeds[0], groups))
  }

  /** One turn of the loop over `k_matches`: `seed` starts a group unless a group already holds it. */
  function Extend(s: Sudoku, pm: PMap, kMatches: seq<Pos>, seed: Pos, groups: seq<seq<Pos>>): (r: seq<seq<Pos>>)
    requires Square(s) && Shaped(pm, s.height, s.width, s.depth) && InBoard(s, seed)
    requires OnBoard(s, groups)
    ensures OnBoard(s, r)
  {
    if seed in Flatten(groups) then groups else groups + [Group(s, pm, kMatches, seed)]
  }

  /** The groups `solve` builds for `k` on the map as it stands. */
  function Groups(s: Sudoku, pm: PMap, k: int): (r: seq<seq<Pos>>)
    requires Square(s) && Shaped(pm, s.height, s.width, s.depth)
    ensures OnBoard(s, r)
  {
    var kMatches := FindNPossible(s, pm, k);
    Grouping(s, pm, kMatches, kMatches, [])
  }

  /** The grouping loop of `solve` for one `k`. */
  method BuildGroups(s: Sudoku, pm: PMap, k: int) returns (groups: seq<seq<Pos>>)
    requires Square(s) && Shaped(pm, s.height, s.width, s.depth)
    ensures groups == Groups(s, pm, k)
  {
    var kMatches := FindNPossible(s, pm, k);
    groups := [];
    for n := 0 to |kMatches|
      invariant OnBoard(s, groups)
      invariant Grouping(s, pm, kMatches, kMatches[n..], groups) == Groups(s, pm, k)
    {
      var kMatch := kMatches[n];
      if kMatch in Flatten(groups) {
        continue;
      }
      var group := Group(s, pm, kMatches, kMatch);
      groups := groups + [group];
    }
  }

  /**
   A group as `solve` builds it: its last member is a seed with exactly `k` candidates,
   and every other member is a different cell connected to the seed with an identical
   entry.
   */
  ghost predicate WellGrouped(s: Sudoku, pm: PMap, k: int, g: seq<Pos>)
    requires Square(s) && Shaped(pm, s.height, s.width, s.depth)
  {
    && g != []
    && var seed := g[|g| - 1];
    && InBoard(s, seed) && Count(Cell(pm, seed)) == k
    && forall j :: 0 <= j < |g| - 1 ==>
         && g[j] in Connected(s, seed) && g[j] != seed
         && InBoard(s, g[j]) && Cell(pm, g[j]) == Cell(pm, seed)
  }

  /** No group's seed belongs to an earlier group. */
  ghost predicate FreshSeeds(groups: seq<seq<Pos>>)
  {
    forall i, j :: 0 <= j < i < |groups| && groups[i] != [] ==> groups[i][|groups[i]| - 1] !in groups[j]
  }

  lemma GroupIsWellGrouped(s: Sudoku, pm: PMap, k: int, seed: Pos)
    requires Square(s) && Shaped(pm, s.height, s.width, s.depth)
    requires InBoard(s, seed) && Count(Cell(pm, seed)) == k
    ensures WellGrouped(s, pm, k, Group(s, pm, FindNPossible(s, pm, k), seed))
  {
    var kMatches := FindNPossible(s, pm, k);
    var g := Group(s, pm, kMatches, seed);
    var similar := SimilarConnected(s, pm, kMatches, seed, Positions(s));
    assert g[..|g| - 1] == similar;
    forall j | 0 <= j < |g| - 1
      ensures g[j] in Connected(s, seed) && g[j] != seed && Cell(pm, g[j]) == Cell(pm, seed)
    {
      assert g[j] in similar;
    }
  }

  /** What every prefix of the group list satisfies while `solve` builds it. */
  ghost predicate GroupsSoFar(s: Sudoku, pm: PMap, k: int, groups: seq<seq<Pos>>)
    requires Square(s) && Shaped(pm, s.height, s.width, s.depth)
  {
    && OnBoard(s, groups)
    && (forall g :: g in groups ==> WellGrouped(s, pm, k, g))
    && FreshSeeds(groups)
  }

  /**
   One turn of the grouping loop keeps `GroupsSoFar`, only appends, and leaves the seed in
   some group.
   */
  lemma ExtendKeeps(s: Sudoku, pm: PMap, k: int, groups: seq<seq<Pos>>, seed: Pos)
    requires Square(s) && Shaped(pm, s.height, s.width, s.depth)
    requires InBoard(s, seed) && Count(Cell(pm, seed)) == k
    requires GroupsSoFar(s, pm, k, groups)
    ensures var next := Extend(s, pm, FindNPossible(s, pm, k), seed, groups);
            groups <= next && GroupsSoFar(s, pm, k, next) && seed in Flatten(next)
  {
    if seed !in Flatten(groups) {
      GroupingAppend(s, pm, k, groups, seed);
    }
  }

  /** Starting a group at a seed that no earlier group holds keeps `GroupsSoFar`. */
  lemma {:induction false} GroupingAppend(s: Sudoku, pm: PMap, k: int, groups: seq<seq<Pos>>, seed: Pos)
    requires Square(s) && Shaped(pm, s.height, s.width, s.depth)
    requires InBoard(s, seed) && Count(Cell(pm, seed)) == k
    requires GroupsSoFar(s, pm, k, groups) && seed !in Flatten(groups)
    ensures var next := groups + [Group(s, pm, FindNPossible(s, pm, k), seed)];
            GroupsSoFar(s, pm, k, next) && seed in Flatten(next)
  {
    var g := Group(s, pm, FindNPossible(s, pm, k), seed);
    GroupIsWellGrouped(s, pm, k, seed);
    FreshSeedsAppend(groups, g);
    assert forall h :: h in groups + [g] ==> h in groups || h == g;
    assert seed in g;
  }

  lemma {:induction false} FreshSeedsAppend(groups: seq<seq<Pos>>, g: seq<Pos>)
    requires FreshSeeds(groups) && g != [] && g[|g| - 1] !in Flatten(groups)
    ensures FreshSeeds(groups + [g])
  {
    var next := groups + [g];
    forall i, j | 0 <= j < i < |next| && next[i] != []
      ensures next[i][|next[i]| - 1] !in next[j]
    {
      assert next[j] == groups[j] && groups[j] in groups;
      if i < |groups| {
        assert next[i] == groups[i];
      }
    }
  }

  lemma {:induction false} GroupingShape(s: Sudoku, pm: PMap, k: int, seeds: seq<Pos>, groups: seq<seq<Pos>>)
    requires Square(s) && Shaped(pm, s.height, s.width, s.depth)
    requires forall p :: p in seeds ==> InBoard(s, p) && Count(Cell(pm, p)) == k
    requires GroupsSoFar(s, pm, k, groups)
    ensures var r := Grouping(s, pm, FindNPossible(s, pm, k), seeds, groups);
            && groups <= r
            && GroupsSoFar(s, pm, k, r)
            && (forall p :: p in seeds ==> p in Flatten(r))
    decreases |seeds|
  {
    var kMatches := FindNPossible(s, pm, k);
    if seeds != [] {
      var next := Extend(s, pm, kMatches, seeds[0], groups);
      ExtendKeeps(s, pm, k, groups, seeds[0]);
      GroupingShape(s, pm, k, seeds[1..], next);
      FlattenGrows(next, Grouping(s, pm, kMatches, seeds[1..], next));
    }
  }

  lemma FlattenGrows(a: seq<seq<Pos>>, b: seq<seq<Pos>>)
    requires a <= b
    ensures forall p :: p in Flatten(a) ==> p in Flatten(b)
  {
    forall p | p in Flatten(a) ensures p in Flatten(b) {
      var g :| g in a && p in g;
      assert g in b;
    }
  }

  /**
   The groups for `k`: each is a seed with `k` candidates plus connected cells with an
   identical entry, no seed lies in an earlier group, and every cell with `k`
   candidates lies in some group.
   */
  lemma GroupsShape(s: Sudoku, pm: PMap, k: int)
    requires Square(s) && Shaped(pm, s.height, s.width, s.depth)
    ensures var groups := Groups(s, pm, k);
            && (forall g :: g in groups ==> WellGrouped(s, pm, k, g))
            && FreshSeeds(groups)
            && forall p :: InBoard(s, p) && Count(Cell(pm, p)) == k ==> p in Flatten(groups)
  {
    GroupingShape(s, pm, k, FindNPossible(s, pm, k), []);
    assert Groups(s, pm, k) == Grouping(s, pm, FindNPossible(s, pm, k), FindNPossible(s, pm, k), []);
  }

  /** `entry & ~common` */
  function Mask(e: Entry, common: Entry): (r: Entry)
    requires |e| == |common|
    ensures |r| == |e| && forall i :: 0 <= i < |e| ==> r[i] == (e[i] && !common[i])
  {
    seq(|e|, i requires 0 <= i < |e| => e[i] && !common[i])
  }

  lemma MaskTwice(e: Entry, common: Entry)
    requires |e| == |common|
    ensures Mask(Mask(e, common), common) == Mask(e, common)
  {
  }

  /** Every cell connected to some member of `members`. */
  function Neighbourhood(s: Sudoku, members: seq<Pos>): set<Pos>
    requires Valid(s)
  {
    if members == [] then {}
    else Neighbourhood(s, members[..|members| - 1]) + Connected(s, members[|members| - 1])
  }

  lemma {:induction false} NeighbourhoodMembers(s: Sudoku, members: seq<Pos>)
    requires Valid(s)
    ensures forall q :: q in Neighbourhood(s, members) <==> exists e :: e in members && q in Connected(s, e)
  {
    if members != [] {
      var last := members[|members| - 1];
      NeighbourhoodMembers(s, members[..|members| - 1]);
      assert forall e :: e in members <==> e in members[..|members| - 1] || e == last;
    }
  }

  /**
   `pm` with `common`'s flags cleared in every cell of `reach` outside `members`, built
   row by row.
   */
  function Masked(pm: PMap, h: nat, w: nat, d: nat, members: seq<Pos>, reach: set<Pos>, common: Entry): (r: PMap)
    requires Shaped(pm, h, w, d) && |common| == d
    ensures Shaped(r, h, w, d)
  {
    if h == 0 then []
    else
      assert Shaped(pm[..h - 1], h - 1, w, d);
      Masked(pm[..h - 1], h - 1, w, d, members, reach, common)
      + [MaskedRow(pm[h - 1], h - 1, w, d, members, reach, common)]
  }

  /** Row `row` of `Masked`, built cell by cell. */
  function MaskedRow(cells: seq<Entry>, row: int, w: nat, d: nat, members: seq<Pos>, reach: set<Pos>, common: Entry): (r: seq<Entry>)
    requires |cells| == w && |common| == d
    requires forall c :: 0 <= c < w ==> |cells[c]| == d
    ensures |r| == w && forall c :: 0 <= c < w ==> |r[c]| == d
  {
    if w == 0 then []
    else
      var e := cells[w - 1];
      MaskedRow(cells[..w - 1], row, w - 1, d, members, reach, common)
      + [if (row, w - 1) !in members && (row, w - 1) in reach then Mask(e, common) else e]
  }

  lemma {:induction false} MaskedRowCell(cells: seq<Entry>, row: int, w: nat, d: nat, members: seq<Pos>,
                                         reach: set<Pos>, common: Entry, col: int)
    requires |cells| == w && |common| == d
    requires forall c :: 0 <= c < w ==> |cells[c]| == d
    requires 0 <= col < w
    ensures MaskedRow(cells, row, w, d, members, reach, common)[col] ==
              if (row, col) !in members && (row, col) in reach then Mask(cells[col], common) else cells[col]
  {
    if col < w - 1 {
      MaskedRowCell(cells[..w - 1], row, w - 1, d, members, reach, common, col);
    }
  }

  lemma {:induction false} MaskedCell(pm: PMap, h: nat, w: nat, d: nat, members: seq<Pos>, reach: set<Pos>, common: Entry, q: Pos)
    requires Shaped(pm, h, w, d) && |common| == d
    requires 0 <= q.0 < h && 0 <= q.1 < w
    ensures Cell(Masked(pm, h, w, d, members, reach, common), q) ==
              if q !in members && q in reach then Mask(Cell(pm, q), common) else Cell(pm, q)
  {
    if q.0 < h - 1 {
      assert Shaped(pm[..h - 1], h - 1, w, d);
      MaskedCell(pm[..h - 1], h - 1, w, d, members, reach, common, q);
    }
    else {
      MaskedRowCell(pm[h - 1], h - 1, w, d, members, reach, common, q.1);
    }
  }

  /** Masking one more cell of the reach is one `&= ~common` on that cell. */
  lemma MaskedAdd(pm: PMap, h: nat, w: nat, d: nat, members: seq<Pos>, reach: set<Pos>, common: Entry, con: Pos)
    requires Shaped(pm, h, w, d) && |common| == d
    requires 0 <= con.0 < h && 0 <= con.1 < w
    ensures var before := Masked(pm, h, w, d, members, reach, common);
            Masked(pm, h, w, d, members, reach + {con}, common) ==
              if con in members then before else SetCell(before, con, Mask(Cell(before, con), common))
  {
    var before := Masked(pm, h, w, d, members, reach, common);
    var after := Masked(pm, h, w, d, members, reach + {con}, common);
    var expected := if con in members then before else SetCell(before, con, Mask(Cell(before, con), common));
    forall p: Pos | 0 <= p.0 < h && 0 <= p.1 < w
      ensures Cell(after, p) == Cell(expected, p)
    {
      MaskedCell(pm, h, w, d, members, reach, common, p);
      MaskedCell(pm, h, w, d, members, reach + {con}, common, p);
      if p == con && con !in members {
        MaskTwice(Cell(pm, con), common);
      }
    }
    assert Shaped(expected, h, w, d) by {
      forall r, c | 0 <= r < h && 0 <= c < w
        ensures |expected[r][c]| == d
      {
        assert Cell(expected, (r, c)) == expected[r][c];
      }
    }
    SameMap(after, expected, h, w, d);
  }

  lemma NeighbourhoodStep(s: Sudoku, members: seq<Pos>, n: nat)
    requires Valid(s) && n < |members|
    ensures Neighbourhood(s, members[..n + 1]) == Neighbourhood(s, members[..n]) + Connected(s, members[n])
  {
    assert members[..n + 1][..n] == members[..n];
  }

  /**
   The map after one group's elimination, as a closed form: every non-member connected
   to a member has the flags of the first member's entry cleared.
   */
  function Eliminated(s: Sudoku, pm: PMap, group: seq<Pos>): (r: PMap)
    requires Square(s) && Shaped(pm, s.height, s.width, s.depth)
    requires Members(s, group)
    ensures Shaped(r, s.height, s.width, s.depth)
  {
    Masked(pm, s.height, s.width, s.depth, group, Neighbourhood(s, group), Cell(pm, group[0]))
  }

  /**
   What one group's elimination does: members and cells not connected to any member keep
   their entries; every other cell loses exactly the flags set in the first member's entry.
   */
  lemma EliminatedEffect(s: Sudoku, pm: PMap, group: seq<Pos>, q: Pos)
    requires Square(s) && Shaped(pm, s.height, s.width, s.depth)
    requires Members(s, group)
    requires InBoard(s, q)
    ensures var before, after, common := Cell(pm, q), Cell(Eliminated(s, pm, group), q), Cell(pm, group[0]);
            && |after| == |before| == |common| == s.depth
            && (q in group || q !in Neighbourhood(s, group) ==> after == before)
            && (q !in group && q in Neighbourhood(s, group) ==>
                  forall i :: 0 <= i < s.depth ==> after[i] == (before[i] && !common[i]))
  {
    var reach := Neighbourhood(s, group);
    var common := Cell(pm, group[0]);
    assert Eliminated(s, pm, group) == Masked(pm, s.height, s.width, s.depth, group, reach, common);
    MaskedCell(pm, s.height, s.width, s.depth, group, reach, common, q);
  }

  lemma MaskedNone(pm: PMap, h: nat, w: nat, d: nat, members: seq<Pos>, common: Entry)
    requires Shaped(pm, h, w, d) && |common| == d
    ensures Masked(pm, h, w, d, members, {}, common) == pm
  {
    var r := Masked(pm, h, w, d, members, {}, common);
    forall p: Pos | 0 <= p.0 < h && 0 <= p.1 < w
      ensures Cell(r, p) == Cell(pm, p)
    {
      MaskedCell(pm, h, w, d, members, {}, common, p);
    }
    SameMap(r, pm, h, w, d);
  }

  lemma MaskedNarrows(pm: PMap, h: nat, w: nat, d: nat, members: seq<Pos>, reach: set<Pos>, common: Entry)
    requires Shaped(pm, h, w, d) && |common| == d
    ensures Narrower(Masked(pm, h, w, d, members, reach, common), pm)
  {
    var r := Masked(pm, h, w, d, members, reach, common);
    forall row, col | 0 <= row < h && 0 <= col < w
      ensures forall i :: 0 <= i < d ==> (r[row][col][i] ==> pm[row][col][i])
    {
      MaskedCell(pm, h, w, d, members, reach, common, (row, col));
    }
  }

  /** One group's elimination only clears flags. */
  lemma EliminatedNarrows(s: Sudoku, pm: PMap, group: seq<Pos>)
    requires Square(s) && Shaped(pm, s.height, s.width, s.depth)
    requires Members(s, group)
    ensures Narrower(Eliminated(s, pm, group), pm)
  {
    MaskedNarrows(pm, s.height, s.width, s.depth, group, Neighbourhood(s, group), Cell(pm, group[0]));
  }

  /**
   The elimination loop of `solve` for one group: for each member, clear
   `common_possible` from every connected non-member. `common_possible` is a view on the
   first member's entry, so it is read from the map at each step; the loop never writes a
   member, so the view does not change.
   */
  method EliminateGroup(s: Sudoku, pm0: PMap, group: seq<Pos>) returns (pm: PMap)
    requires Square(s) && Shaped(pm0, s.height, s.width, s.depth)
    requires Members(s, group)
    ensures pm == Eliminated(s, pm0, group)
  {
    pm := pm0;
    MaskedNone(pm0, s.height, s.width, s.depth, group, Cell(pm0, group[0]));
    assert Neighbourhood(s, group[..0]) == {};
    for n := 0 to |group|
      invariant pm == Masked(pm0, s.height, s.width, s.depth, group, Neighbourhood(s, group[..n]), Cell(pm0, group[0]))
    {
      pm := ClearMember(s, pm0, group, n, pm);
    }
    assert group[..|group|] == group;
  }

  /**
   One turn of the loop over the members: member `n`'s connected cells are cleared, which
   extends the cleared part from the first `n` members' neighbourhood to the first `n + 1`'s.
   */
  method ClearMember(s: Sudoku, ghost pm0: PMap, group: seq<Pos>, n: nat, pmIn: PMap) returns (pm: PMap)
    requires Square(s) && Shaped(pm0, s.height, s.width, s.depth)
    requires Members(s, group) && n < |group|
    requires pmIn == Masked(pm0, s.height, s.width, s.depth, group, Neighbourhood(s, group[..n]), Cell(pm0, group[0]))
    ensures pm == Masked(pm0, s.height, s.width, s.depth, group, Neighbourhood(s, group[..n + 1]), Cell(pm0, group[0]))
  {
    var element := group[n];
    pm := ClearConnected(s, pm0, group, Neighbourhood(s, group[..n]), Connected(s, element), pmIn);
    NeighbourhoodStep(s, group, n);
  }

  /**
   The inner loop of the elimination, for one member: `possible_map[con] &= ~common_possible`
   for every connected `con` outside the group. `reach` is the part of the neighbourhood
   already cleared.
   */
  method ClearConnected(s: Sudoku, ghost pm0: PMap, group: seq<Pos>, ghost reach: set<Pos>,
                        connected: set<Pos>, pmIn: PMap) returns (pm: PMap)
    requires Shaped(pm0, s.height, s.width, s.depth)
    requires Members(s, group)
    requires forall q :: q in connected ==> InBoard(s, q)
    requires pmIn == Masked(pm0, s.height, s.width, s.depth, group, reach, Cell(pm0, group[0]))
    ensures pm == Masked(pm0, s.height, s.width, s.depth, group, reach + connected, Cell(pm0, group[0]))
  {
    ghost var common := Cell(pm0, group[0]);
    pm := pmIn;
    var pending := connected;
    ghost var reached := reach;
    while pending != {}
      invariant pending <= connected
      invariant forall q :: q in reached <==> q in reach || (q in connected && q !in pending)
      invariant pm == Masked(pm0, s.height, s.width, s.depth, group, reached, common)
      decreases pending
    {
      var con :| con in pending;
      MaskedAdd(pm0, s.height, s.width, s.depth, group, reached, common, con);
      MaskedCell(pm0, s.height, s.width, s.depth, group, reached, common, group[0]);
      if con !in group {
        pm := SetCell(pm, con, Mask(Cell(pm, con), Cell(pm, group[0])));
      }
      reached := reached + {con};
      pending := pending - {con};
    }
    assert reached == reach + connected;
  }

  /** The groups of one `k`, eliminated in order; each reads the map its predecessors left. */
  function EliminateAll(s: Sudoku, pm: PMap, groups: seq<seq<Pos>>): (r: PMap)
    requires Square(s) && Shaped(pm, s.height, s.width, s.depth) && OnBoard(s, groups)
    ensures Shaped(r, s.height, s.width, s.depth)
  {
    if groups == [] then pm
    else
      var last := groups[|groups| - 1];
      assert forall g :: g in groups[..|groups| - 1] ==> g in groups;
      assert last in groups;
      Eliminated(s, EliminateAll(s, pm, groups[..|groups| - 1]), last)
  }

  /** The loop of `solve` over the groups of one `k`. */
  method EliminateGroups(s: Sudoku, pm0: PMap, groups: seq<seq<Pos>>) returns (pm: PMap)
    requires Square(s) && Shaped(pm0, s.height, s.width, s.depth) && OnBoard(s, groups)
    ensures pm == EliminateAll(s, pm0, groups)
  {
    pm := pm0;
    for n := 0 to |groups|
      invariant pm == EliminateAll(s, pm0, groups[..n])
    {
      assert groups[..n + 1][..n] == groups[..n];
      assert groups[n] in groups;
      pm := EliminateGroup(s, pm, groups[n]);
    }
    assert groups[..|groups|] == groups;
  }

  /** One value of `k`: group on the current map, then eliminate. */
  function Step(s: Sudoku, pm: PMap, k: int): (r: PMap)
    requires Square(s) && Shaped(pm, s.height, s.width, s.depth)
    ensures Shaped(r, s.height, s.width, s.depth)
  {
    EliminateAll(s, pm, Groups(s, pm, k))
  }

  /** The steps for `k` = 1 up to `n`, each on the map the previous one left. */
  function Steps(s: Sudoku, pm: PMap, n: nat): (r: PMap)
    requires Square(s) && Shaped(pm, s.height, s.width, s.depth)
    ensures Shaped(r, s.height, s.width, s.depth)
  {
    if n == 0 then pm else Step(s, Steps(s, pm, n - 1), n)
  }

  /** The map one call of `solve` ends with. */
  function PassMap(s: Sudoku): (r: PMap)
    requires Square(s)
    ensures Shaped(r, s.height, s.width, s.depth) && Narrower(r, FreshMap(s))
  {
    StepsNarrow(s, FreshMap(s), 4);
    Steps(s, FreshMap(s), 4)
  }

  lemma {:induction false} EliminateAllNarrows(s: Sudoku, pm: PMap, groups: seq<seq<Pos>>)
    requires Square(s) && Shaped(pm, s.height, s.width, s.depth) && OnBoard(s, groups)
    ensures Narrower(EliminateAll(s, pm, groups), pm)
  {
    if groups != [] {
      var init := groups[..|groups| - 1];
      var last := groups[|groups| - 1];
      assert forall g :: g in init ==> g in groups;
      assert last in groups;
      EliminateAllNarrows(s, pm, init);
      EliminatedNarrows(s, EliminateAll(s, pm, init), last);
      NarrowerTransitive(EliminateAll(s, pm, groups), EliminateAll(s, pm, init), pm);
    }
  }

  lemma StepNarrows(s: Sudoku, pm: PMap, k: int)
    requires Square(s) && Shaped(pm, s.height, s.width, s.depth)
    ensures Narrower(Step(s, pm, k), pm)
  {
    EliminateAllNarrows(s, pm, Groups(s, pm, k));
  }

  /** If the first `n - 1` steps only clear flags, so do the first `n`. */
  lemma LastStepNarrows(s: Sudoku, pm: PMap, n: nat)
    requires Square(s) && Shaped(pm, s.height, s.width, s.depth) && n > 0
    ensures Narrower(Steps(s, pm, n - 1), pm) ==> Narrower(Steps(s, pm, n), pm)
  {
    if Narrower(Steps(s, pm, n - 1), pm) {
      StepNarrows(s, Steps(s, pm, n - 1), n);
      NarrowerTransitive(Steps(s, pm, n), Steps(s, pm, n - 1), pm);
    }
  }

  lemma {:induction false} StepsNarrow(s: Sudoku, pm: PMap, n: nat)
    requires Square(s) && Shaped(pm, s.height, s.width, s.depth)
    ensures Narrower(Steps(s, pm, n), pm)
  {
    if n == 0 {
      NarrowerReflexive(pm);
    } else {
      StepsNarrow(s, pm, n - 1);
      LastStepNarrows(s, pm, n);
    }
  }

  /** With no cell holding exactly `k` candidates there is nothing to group, and the step changes nothing. */
  lemma StepWithoutMatches(s: Sudoku, pm: PMap, k: int)
    requires Square(s) && Shaped(pm, s.height, s.width, s.depth)
    requires forall p :: InBoard(s, p) ==> Count(Cell(pm, p)) != k
    ensures Groups(s, pm, k) == [] && Step(s, pm, k) == pm
  {
    NoneWithCount(pm, Positions(s), k);
  }

  lemma {:induction false} StepsWithoutCandidates(s: Sudoku, pm: PMap, n: nat)
    requires Square(s) && Shaped(pm, s.height, s.width, s.depth)
    requires forall p :: InBoard(s, p) ==> Count(Cell(pm, p)) == 0
    ensures Steps(s, pm, n) == pm
  {
    if n > 0 {
      StepsWithoutCandidates(s, pm, n - 1);
      StepWithoutMatches(s, pm, n);
    }
  }

  /**
   On a board whose every cell holds a symbol the fresh map has no candidate, so the pass
   changes nothing and both printed totals are 0.
   */
  lemma FilledBoardUnchanged(s: Sudoku)
    requires Square(s)
    requires forall p :: InBoard(s, p) ==> At(s, p) in s.symbols
    ensures PassMap(s) == FreshMap(s) && Total(PassMap(s)) == 0
  {
    var pm := FreshMap(s);
    forall p | InBoard(s, p) ensures Count(Cell(pm, p)) == 0 {
      assert Cell(pm, p) == FreshEntry(s, p);
    }
    StepsWithoutCandidates(s, pm, 4);
    NoCandidatesTotal(pm, s.height, s.width, s.depth);
  }

  lemma NoCandidatesTotal(pm: PMap, h: nat, w: nat, d: nat)
    requires Shaped(pm, h, w, d)
    requires forall p: Pos :: 0 <= p.0 < h && 0 <= p.1 < w ==> Count(Cell(pm, p)) == 0
    ensures Total(pm) == 0
  {
    TotalZero(pm);
    forall r, c | 0 <= r < |pm| && 0 <= c < |pm[r]| ensures Count(pm[r][c]) == 0 {
      assert Cell(pm, (r, c)) == pm[r][c];
    }
  }

  /**
   `solve`: one pass over k = 1..4 on a fresh map. Returns the narrowed map with the
   totals printed before and after; the board is not touched.
   */
  method Solve(s: Sudoku) returns (possibleMap: PMap, presum: nat, postsum: nat)
    requires Square(s)
    ensures possibleMap == PassMap(s)
    ensures presum == Total(FreshMap(s)) && postsum == Total(possibleMap)
    ensures Narrower(possibleMap, FreshMap(s))
    ensures postsum <= presum
  {
    possibleMap := CreatePossibleMap(s);
    presum := Total(possibleMap);
    for k := 1 to 5
      invariant possibleMap == Steps(s, FreshMap(s), k - 1)
    {
      var groups := BuildGroups(s, possibleMap, k);
      possibleMap := EliminateGroups(s, possibleMap, groups);
    }
    postsum := Total(possibleMap);
    StepsNarrow(s, FreshMap(s), 4);
    TotalMonotone(possibleMap, FreshMap(s));
  }
}
