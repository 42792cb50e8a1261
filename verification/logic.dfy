/** The single-tile engine of logic.js: the level, the level-scoped domains, the random
    generator, the mutator that guarantees a visible change, and the structural diff. */
module Logic {
  import opened Wrappers
  import opened Seqs
  import opened Random
  import Emoji
  import Colors

  // ---------------------------------------------------------------- level

  /** The module variable `level` starts at 1 and never goes above 3. */
  const FirstLevel: int := 1
  const MaxLevel: int := 3

  /** `nextLevel()`: one level up, capped at the top level. */
  function NextLevel(level: int): (next: int)
    ensures next <= MaxLevel
    ensures level < MaxLevel ==> next == level + 1
    ensures level >= MaxLevel ==> next == MaxLevel
  {
    if level + 1 < MaxLevel then level + 1 else MaxLevel
  }

  /** The two writers of `level`: `nextLevel()` and `resetLevel()`. */
  datatype LevelEvent = Next | Reset

  /** The value of `level` after a run of calls, starting from its initial value. */
  function LevelAfter(events: seq<LevelEvent>): int
  {
    if |events| == 0 then FirstLevel
    else match events[|events| - 1]
      case Next => NextLevel(LevelAfter(events[..|events| - 1]))
      case Reset => FirstLevel
  }

  /** Whatever the calls, `level` stays in {1, 2, 3}. */
  lemma {:induction false} LevelStaysInRange(events: seq<LevelEvent>)
    ensures FirstLevel <= LevelAfter(events) <= MaxLevel
  {
    if |events| > 0 {
      LevelStaysInRange(events[..|events| - 1]);
    }
  }

  /** `nextLevel()` never lowers the level and `resetLevel()` puts it back to 1. */
  lemma {:induction false} LevelStep(events: seq<LevelEvent>, e: LevelEvent)
    ensures e == Next ==> LevelAfter(events) <= LevelAfter(events + [e])
    ensures e == Next && LevelAfter(events) < MaxLevel ==> LevelAfter(events + [e]) == LevelAfter(events) + 1
    ensures e == Reset ==> LevelAfter(events + [e]) == FirstLevel
  {
    assert (events + [e])[..|events|] == events;
    LevelStaysInRange(events);
  }

  // ---------------------------------------------------------------- pools

  /** The candidate shapes of `getSymbolPool`, most distinct first. */
  const OrderedShapes: seq<Emoji.Shape> := [
    Emoji.Circle, Emoji.Square, Emoji.TriangleUp, Emoji.Star, Emoji.Heart, Emoji.ArrowRight,
    Emoji.Cross, Emoji.Diamond, Emoji.TriangleDown, Emoji.TriangleLeft, Emoji.TriangleRight,
    Emoji.ArrowLeft, Emoji.ArrowUp, Emoji.ArrowDown, Emoji.Asterisk, Emoji.DoubleExcl,
    Emoji.QuestionDouble, Emoji.QuestionExcl, Emoji.ExclQuestion
  ]

  /** The candidate colours of `getColorPool`, highest contrast first. */
  const OrderedColors: seq<Colors.Color> := [
    Colors.Red, Colors.Green, Colors.Blue, Colors.Yellow, Colors.Purple, Colors.Orange,
    Colors.Cyan, Colors.Pink, Colors.Black
  ]

  /** Every ordered shape is a name of SHAPES, and none is listed twice. */
  lemma OrderedShapesKnown()
    ensures |OrderedShapes| == 19 && Distinct(OrderedShapes)
    ensures forall s | s in OrderedShapes :: s in Emoji.Shapes
  {
  }

  /** Every ordered colour is a value of COLORS, and none is listed twice. */
  lemma OrderedColorsKnown()
    ensures |OrderedColors| == 9 && Distinct(OrderedColors)
    ensures forall c | c in OrderedColors :: c in Colors.Colors
  {
  }

  /** How many entries of an ordered list a level may use: `small` up to level 1,
      `medium` at level 2, everything from level 3 on. */
  function PoolSize(lvl: int, small: nat, medium: nat, all: nat): nat
  {
    if lvl <= 1 then small else if lvl == 2 then medium else all
  }

  /** `getSymbolPool(lvl)`: the ordered shapes that SHAPES knows, cut to the level's size:
      8 shapes up to level 1, 14 at level 2, all 19 from level 3 on. */
  function SymbolPool(lvl: int): (pool: seq<Emoji.Shape>)
    ensures |pool| == PoolSize(lvl, 8, 14, 19)
    ensures Distinct(pool)
  {
    OrderedShapesKnown();
    LevelPool(OrderedShapes, Emoji.Shapes, lvl, 8, 14)
  }

  /** `getColorPool(lvl)`: the ordered colours that COLORS knows, cut to the level's size:
      4 colours up to level 1, 7 at level 2, all 9 from level 3 on. */
  function ColorPool(lvl: int): (pool: seq<Colors.Color>)
    ensures |pool| == PoolSize(lvl, 4, 7, 9)
    ensures Distinct(pool)
  {
    OrderedColorsKnown();
    LevelPool(OrderedColors, Colors.Colors, lvl, 4, 7)
  }

  /** Each symbol pool is a prefix of the ordered list and holds only names of SHAPES,
      so the filter against SHAPES drops nothing. */
  lemma SymbolPoolIsKnownPrefix(lvl: int)
    ensures SymbolPool(lvl) <= OrderedShapes
    ensures forall s | s in SymbolPool(lvl) :: s in Emoji.Shapes
    ensures lvl >= MaxLevel ==> SymbolPool(lvl) == OrderedShapes
  {
    OrderedShapesKnown();
  }

  /** Each colour pool is a prefix of the ordered list and holds only values of COLORS,
      so the filter against COLORS drops nothing and level 3 gets all nine colours. */
  lemma ColorPoolIsKnownPrefix(lvl: int)
    ensures ColorPool(lvl) <= OrderedColors
    ensures forall c | c in ColorPool(lvl) :: c in Colors.Colors
    ensures lvl >= MaxLevel ==> ColorPool(lvl) == OrderedColors
  {
    OrderedColorsKnown();
  }

  /** Position of a shape in the ordered candidate list. */
  function ShapeRank(s: Emoji.Shape): (i: nat)
    ensures i < |OrderedShapes| && OrderedShapes[i] == s
  {
    match s
    case Circle => 0
    case Square => 1
    case TriangleUp => 2
    case Star => 3
    case Heart => 4
    case ArrowRight => 5
    case Cross => 6
    case Diamond => 7
    case TriangleDown => 8
    case TriangleLeft => 9
    case TriangleRight => 10
    case ArrowLeft => 11
    case ArrowUp => 12
    case ArrowDown => 13
    case Asterisk => 14
    case DoubleExcl => 15
    case QuestionDouble => 16
    case QuestionExcl => 17
    case ExclQuestion => 18
  }

  /** Position of a colour in the ordered candidate list. */
  function ColorRank(c: Colors.Color): (i: nat)
    ensures i < |OrderedColors| && OrderedColors[i] == c
  {
    match c
    case Red => 0
    case Green => 1
    case Blue => 2
    case Yellow => 3
    case Purple => 4
    case Orange => 5
    case Cyan => 6
    case Pink => 7
    case Black => 8
  }

  /** A shape is in the level's symbol pool exactly when its rank is below the pool size. */
  lemma SymbolPoolMembership(lvl: int, s: Emoji.Shape)
    ensures s in SymbolPool(lvl) <==> ShapeRank(s) < PoolSize(lvl, 8, 14, 19)
  {
    SymbolPoolIsKnownPrefix(lvl);
    OrderedShapesKnown();
    PrefixMembership(SymbolPool(lvl), OrderedShapes, ShapeRank(s));
  }

  /** A colour is in the level's colour pool exactly when its rank is below the pool size. */
  lemma ColorPoolMembership(lvl: int, c: Colors.Color)
    ensures c in ColorPool(lvl) <==> ColorRank(c) < PoolSize(lvl, 4, 7, 9)
  {
    ColorPoolIsKnownPrefix(lvl);
    OrderedColorsKnown();
    PrefixMembership(ColorPool(lvl), OrderedColors, ColorRank(c));
  }

  /** In a list without repeats, entry `i` is in a prefix exactly when `i` is below its length. */
  lemma PrefixMembership<T>(prefix: seq<T>, s: seq<T>, i: nat)
    requires prefix <= s && Distinct(s) && i < |s|
    ensures s[i] in prefix <==> i < |prefix|
  {
    if i < |prefix| {
      assert prefix[i] == s[i];
    }
    if s[i] in prefix {
      var j :| 0 <= j < |prefix| && prefix[j] == s[i];
      assert s[j] == s[i];
    }
  }

  /** The shared shape of both pool functions: `ordered.filter(x => catalogue.includes(x))`,
      then `slice(0, small)` up to level 1, `slice(0, medium)` at level 2, all of it above. */
  function LevelPool<T(==)>(ordered: seq<T>, catalogue: seq<T>, lvl: int, small: nat, medium: nat): (pool: seq<T>)
    requires small <= medium <= |ordered|
    requires Distinct(ordered)
    requires forall x | x in ordered :: x in catalogue
    ensures |pool| == PoolSize(lvl, small, medium, |ordered|)
    ensures pool <= ordered
    ensures Distinct(pool)
    ensures forall x | x in pool :: x in catalogue
  {
    KeepAll(ordered, catalogue);
    var known := Keep(ordered, catalogue);
    if lvl <= 1 then Take(known, small)
    else if lvl == 2 then Take(known, medium)
    else known
  }

  /** A higher level only appends to the pools: existing values keep their place. */
  lemma PoolsGrowByPrefix(lo: int, hi: int)
    requires lo <= hi
    ensures SymbolPool(lo) <= SymbolPool(hi)
    ensures ColorPool(lo) <= ColorPool(hi)
  {
    OrderedShapesKnown();
    LevelPoolsNest(OrderedShapes, Emoji.Shapes, lo, hi, 8, 14);
    OrderedColorsKnown();
    LevelPoolsNest(OrderedColors, Colors.Colors, lo, hi, 4, 7);
  }

  /** For any ordered list, the pool of a higher level extends the pool of a lower one. */
  lemma LevelPoolsNest<T>(ordered: seq<T>, catalogue: seq<T>, lo: int, hi: int, small: nat, medium: nat)
    requires lo <= hi
    requires small <= medium <= |ordered|
    requires Distinct(ordered)
    requires forall x | x in ordered :: x in catalogue
    ensures LevelPool(ordered, catalogue, lo, small, medium) <= LevelPool(ordered, catalogue, hi, small, medium)
  {
    PrefixesNest(LevelPool(ordered, catalogue, lo, small, medium), LevelPool(ordered, catalogue, hi, small, medium), ordered);
  }

  /** The membership filter only asks whether a name is in the catalogue, so any reordering
      of SHAPES (tile.js sorts it in place) leaves every symbol pool unchanged. */
  lemma {:induction false} SymbolFilterIgnoresCatalogueOrder(catalogue: seq<Emoji.Shape>)
    requires multiset(catalogue) == multiset(Emoji.Shapes)
    ensures Keep(OrderedShapes, catalogue) == OrderedShapes
  {
    OrderedShapesKnown();
    KeepPermuted(OrderedShapes, catalogue, Emoji.Shapes);
  }

  // ---------------------------------------------------------------- grid

  /** A grid cell, `[row, col]`. */
  datatype Pos = Pos(row: int, col: int)

  /** `getGridSize(lvl)`: a 2x2 grid up to level 1, 3x3 at level 2, 4x4 from level 3 on. */
  function GridSize(lvl: int): (size: int)
    ensures 2 <= size <= 4
    ensures FirstLevel <= lvl <= MaxLevel ==> size == lvl + 1
    ensures lvl <= FirstLevel ==> size == 2
    ensures lvl >= MaxLevel ==> size == 4
  {
    if lvl <= 1 then 2 else if lvl == 2 then 3 else 4
  }

  /** `getGridPositions(size)`: every cell exactly once, rows top to bottom, each left to right
      (cell `[r, c]` at index `r * size + c`). */
  function GridPositions(size: int): (ps: seq<Pos>)
    ensures |ps| == if size <= 0 then 0 else size * size
    ensures size > 0 ==> |ps| > 0
    ensures forall p | p in ps :: 0 <= p.row < size && 0 <= p.col < size
    ensures forall r, c | 0 <= r < size && 0 <= c < size :: CellAt(ps, size, 0, r, c)
    ensures Distinct(ps)
  {
    if size <= 0 then [] else RowsFrom(size, 0)
  }

  /** The cells the outer loop of `getGridPositions` pushes from row `y` on. */
  function RowsFrom(size: int, y: int): (ps: seq<Pos>)
    requires 0 <= y <= size
    ensures |ps| == (size - y) * size
    ensures forall p | p in ps :: y <= p.row < size && 0 <= p.col < size
    ensures forall r, c | y <= r < size && 0 <= c < size :: CellAt(ps, size, y, r, c)
    ensures Distinct(ps)
    decreases size - y
  {
    if y == size then []
    else
      var row := Row(size, y);
      var rest := RowsFrom(size, y + 1);
      var ps := row + rest;
      RowArithmetic(size, y, y, 0);
      forall r, c | y <= r < size && 0 <= c < size ensures CellAt(ps, size, y, r, c) {
        if r == y {
          assert (r - y) * size + c == c;
        } else {
          assert CellAt(rest, size, y + 1, r, c);
          RowArithmetic(size, y, r, c);
        }
      }
      DistinctConcat(row, rest);
      ps
  }

  /** Cell `[r, c]` sits at index `(r - y) * size + c` of the cells listed from row `y` on. */
  predicate CellAt(ps: seq<Pos>, size: int, y: int, r: int, c: int) {
    0 <= (r - y) * size + c < |ps| && ps[(r - y) * size + c] == Pos(r, c)
  }

  lemma RowArithmetic(size: int, y: int, r: int, c: int)
    requires 0 <= y <= r < size && 0 <= c < size
    ensures size + (size - (y + 1)) * size == (size - y) * size
    ensures r > y ==> (r - y) * size + c == size + ((r - (y + 1)) * size + c)
    ensures r > y ==> (r - (y + 1)) * size + c < (size - (y + 1)) * size
  {
    if r > y {
      var k := r - (y + 1);
      assert (k + 1) * size <= (size - (y + 1)) * size;
    }
  }

  /** The cells the inner loop of `getGridPositions` pushes for row `y`. */
  function Row(size: int, y: int): (ps: seq<Pos>)
    requires size > 0
    ensures |ps| == size
    ensures forall c | 0 <= c < size :: ps[c] == Pos(y, c)
    ensures Distinct(ps)
  {
    seq(size, c requires 0 <= c < size => Pos(y, c))
  }

  /** The grid holds exactly the cells with both coordinates in `[0, size)`. */
  lemma GridMembership(size: int, p: Pos)
    ensures p in GridPositions(size) <==> InGrid(p, size)
  {
    if 0 <= p.row < size && 0 <= p.col < size {
      assert CellAt(GridPositions(size), size, 0, p.row, p.col);
    }
  }

  /** A grid of side at least 2 starts with `[0, 0]` and `[0, 1]`. */
  lemma FirstCells(size: int)
    requires size >= 2
    ensures |GridPositions(size)| >= 2
    ensures GridPositions(size)[0] == Pos(0, 0) && GridPositions(size)[1] == Pos(0, 1)
  {
    assert CellAt(GridPositions(size), size, 0, 0, 0);
    assert CellAt(GridPositions(size), size, 0, 0, 1);
  }

  // ---------------------------------------------------------------- tiles

  /** The four dimensions a tile can change in, in the order `getChangedDimensions` lists them. */
  datatype Dim = Shape | Color | Number | Position

  const Dimensions: seq<Dim> := [Shape, Color, Number, Position]

  /** Index of a dimension in `Dimensions`. */
  function Rank(d: Dim): (i: nat)
    ensures i < |Dimensions| && Dimensions[i] == d
  {
    match d
    case Shape => 0
    case Color => 1
    case Number => 2
    case Position => 3
  }

  /** One displayed pattern. */
  datatype Tile = Tile(shape: Emoji.Shape, color: Colors.Color, number: int, position: Pos)

  /** The two tiles disagree in dimension `d`, compared by value (the code compares
      `JSON.stringify` texts, so positions compare element-wise). */
  predicate Differs(d: Dim, a: Tile, b: Tile) {
    match d
    case Shape => a.shape != b.shape
    case Color => a.color != b.color
    case Number => a.number != b.number
    case Position => a.position != b.position
  }

  /** `getChangedDimensions(a, b)`: the dimensions in which the tiles differ, in canonical order. */
  function ChangedDimensions(a: Tile, b: Tile): (dims: seq<Dim>)
    ensures forall d: Dim :: d in dims <==> Differs(d, a, b)
    ensures dims == [] <==> a == b
  {
    Part(Differs(Shape, a, b), Shape) + Part(Differs(Color, a, b), Color)
    + Part(Differs(Number, a, b), Number) + Part(Differs(Position, a, b), Position)
  }

  /** `[d]` when `keep` holds, `[]` otherwise: one step of the filter. */
  function Part(keep: bool, d: Dim): (p: seq<Dim>)
    ensures d in p <==> keep
    ensures forall e | e in p :: e == d
  {
    if keep then [d] else []
  }

  /** The dimensions are listed in canonical order, each once. */
  predicate Ascending(dims: seq<Dim>) {
    forall i, j | 0 <= i < j < |dims| :: Rank(dims[i]) < Rank(dims[j])
  }

  /** The diff lists the changed dimensions in the order shape, color, number, position. */
  lemma ChangedDimensionsAscending(a: Tile, b: Tile)
    ensures Ascending(ChangedDimensions(a, b))
  {
  }

  /** The diff does not depend on which tile comes first. */
  lemma ChangedDimensionsSymmetric(a: Tile, b: Tile)
    ensures ChangedDimensions(a, b) == ChangedDimensions(b, a)
  {
  }

  /** `[...Array(10).keys()]`: the number domain. */
  const Numbers: seq<int> := Digits()

  function Digits(): (ds: seq<int>)
    ensures |ds| == 10
    ensures forall i | 0 <= i < 10 :: ds[i] == i
  {
    seq(10, i => i)
  }

  lemma NumbersDomain(x: int)
    ensures x in Numbers <==> 0 <= x < 10
  {
    if 0 <= x < 10 {
      assert Numbers[x] == x;
    }
  }

  /** Every value of `t` lies in its dimension's domain at level `lvl`. */
  predicate InLevelDomains(t: Tile, lvl: int) {
    InDomain(Shape, t, lvl) && InDomain(Color, t, lvl) && InDomain(Number, t, lvl) && InDomain(Position, t, lvl)
  }

  /** Cell `p` lies on a grid of side `size`; `GridMembership` shows these are exactly the
      cells of `getGridPositions(size)`. */
  predicate InGrid(p: Pos, size: int) {
    0 <= p.row < size && 0 <= p.col < size
  }

  /** Tile `t`'s value in dimension `d` lies in that dimension's domain at level `lvl`; `SymbolPoolMembership`,
      `ColorPoolMembership`, `NumbersDomain` and `GridMembership` show each case is membership
      in the array the code draws from. */
  predicate InDomain(d: Dim, t: Tile, lvl: int) {
    match d
    case Shape => ShapeRank(t.shape) < PoolSize(lvl, 8, 14, 19)
    case Color => ColorRank(t.color) < PoolSize(lvl, 4, 7, 9)
    case Number => 0 <= t.number < |Numbers|
    case Position => InGrid(t.position, GridSize(lvl))
  }

  /** `generateRandomTile(lvl)`: draws the position first, then shape, colour and number. */
  function GenerateRandomTile(lvl: int, rng: Rng): (t: Tile)
    ensures InLevelDomains(t, lvl)
  {
    var position := DrawPosition(lvl, rng(0));
    var shape := DrawShape(lvl, rng(1));
    var color := DrawColor(lvl, rng(2));
    Tile(shape, color, Index(rng(3), 10), position)
  }

  /** The generated tile's fields are entries of the arrays the code draws them from. */
  lemma GeneratedFromPools(lvl: int, rng: Rng)
    ensures var t := GenerateRandomTile(lvl, rng);
            && t.shape in SymbolPool(lvl) && t.color in ColorPool(lvl)
            && 0 <= t.number < 10 && t.position in GridPositions(GridSize(lvl))
  {
    var t := GenerateRandomTile(lvl, rng);
    assert t.shape in SymbolPool(lvl) by { SymbolPoolMembership(lvl, t.shape); }
    assert t.color in ColorPool(lvl) by { ColorPoolMembership(lvl, t.color); }
    assert t.position in GridPositions(GridSize(lvl)) by { GridMembership(GridSize(lvl), t.position); }
  }

  /** A random entry of the level's symbol pool. */
  function DrawShape(lvl: int, r: Unit): (s: Emoji.Shape)
    ensures s in SymbolPool(lvl) && ShapeRank(s) < PoolSize(lvl, 8, 14, 19)
  {
    var s := Draw(SymbolPool(lvl), r);
    SymbolPoolMembership(lvl, s);
    s
  }

  /** A random entry of the level's colour pool. */
  function DrawColor(lvl: int, r: Unit): (c: Colors.Color)
    ensures c in ColorPool(lvl) && ColorRank(c) < PoolSize(lvl, 4, 7, 9)
  {
    var c := Draw(ColorPool(lvl), r);
    ColorPoolMembership(lvl, c);
    c
  }

  /** A random cell of the level's grid. */
  function DrawPosition(lvl: int, r: Unit): (p: Pos)
    ensures p in GridPositions(GridSize(lvl)) && InGrid(p, GridSize(lvl))
  {
    Draw(GridPositions(GridSize(lvl)), r)
  }

  // ---------------------------------------------------------------- mutation

  /** `pickOther(arr, exclude)`: a random entry of `arr` other than `exclude`, or
      `undefined` when there is none. */
  function PickOther<T(==)>(arr: seq<T>, exclude: T, r: Unit): (pick: Option<T>)
    ensures pick.Some? <==> exists x | x in arr :: x != exclude
    ensures pick.Some? ==> pick.value in arr && pick.value != exclude
  {
    var options := Drop(arr, [exclude]);
    if |options| == 0 then None
    else
      var pick := options[Index(r, |options|)];
      assert pick in options;
      Some(pick)
  }

  /** A list whose first two entries differ holds a value other than any given one. */
  lemma HasOther<T>(s: seq<T>, v: T)
    requires |s| >= 2 && s[0] != s[1]
    ensures exists x | x in s :: x != v
  {
    if s[0] == v {
      assert s[1] in s;
    } else {
      assert s[0] in s;
    }
  }

  /** The number of tries before `mutateTile` falls back to a forced change. */
  const Attempts: nat := 20

  /** A result of `mutateTile` with the fields it assigned: the other fields are the input's
      own values (for position, the very same array object). */
  datatype Mutation = Mutation(tile: Tile, rewritten: seq<Dim>)

  /** One `switch (dim)` case: field `d` of `cand` gets `pickOther(domain, orig[d])`.
      Every domain holds at least two values, so the pick always exists. */
  function Rewrite(orig: Tile, cand: Tile, d: Dim, lvl: int, r: Unit): (next: Tile)
    ensures d == Shape ==> next == cand.(shape := next.shape) && next.shape != orig.shape
    ensures d == Color ==> next == cand.(color := next.color) && next.color != orig.color
    ensures d == Number ==> next == cand.(number := next.number) && next.number != orig.number
    ensures d == Position ==> next == cand.(position := next.position) && next.position != orig.position
    ensures InDomain(d, next, lvl)
  {
    match d
    case Shape => cand.(shape := OtherShape(orig.shape, lvl, r))
    case Color => cand.(color := OtherColor(orig.color, lvl, r))
    case Number => cand.(number := OtherNumber(orig.number, r))
    case Position => cand.(position := OtherPosition(orig.position, lvl, r))
  }

  /** `pickOther(symbolPool, tile.shape)`. */
  function OtherShape(shape: Emoji.Shape, lvl: int, r: Unit): (s: Emoji.Shape)
    ensures s != shape && ShapeRank(s) < PoolSize(lvl, 8, 14, 19)
  {
    var pool := SymbolPool(lvl);
    HasOther(pool, shape);
    var s := PickOther(pool, shape, r).value;
    assert ShapeRank(s) < PoolSize(lvl, 8, 14, 19) by { SymbolPoolMembership(lvl, s); }
    s
  }

  /** `pickOther(colorPool, tile.color)`. */
  function OtherColor(color: Colors.Color, lvl: int, r: Unit): (c: Colors.Color)
    ensures c != color && ColorRank(c) < PoolSize(lvl, 4, 7, 9)
  {
    var pool := ColorPool(lvl);
    HasOther(pool, color);
    var c := PickOther(pool, color, r).value;
    assert ColorRank(c) < PoolSize(lvl, 4, 7, 9) by { ColorPoolMembership(lvl, c); }
    c
  }

  /** `pickOther([...Array(10).keys()], tile.number)`. */
  function OtherNumber(number: int, r: Unit): (n: int)
    ensures n != number && 0 <= n < |Numbers|
  {
    HasOther(Numbers, number);
    var n := PickOther(Numbers, number, r).value;
    NumbersDomain(n);
    n
  }

  /** `pickOther(POSITIONS, tile.position)`. */
  function OtherPosition(position: Pos, lvl: int, r: Unit): (p: Pos)
    ensures p != position && InGrid(p, GridSize(lvl))
  {
    var grid := GridPositions(GridSize(lvl));
    FirstCells(GridSize(lvl));
    HasOther(grid, position);
    var p := PickOther(grid, position, r).value;
    assert InGrid(p, GridSize(lvl)) by { GridMembership(GridSize(lvl), p); }
    p
  }

  /** The `for (const dim of changes)` loop: rewrites `dims` in order, the i-th using draw `k + i`. */
  function RewriteAll(orig: Tile, cand: Tile, dims: seq<Dim>, lvl: int, rng: Rng, k: nat): (next: Tile)
    requires Distinct(dims)
    ensures AllSettled(dims, orig, next, lvl)
    ensures SameOutside(dims, cand, next)
    decreases |dims|
  {
    if |dims| == 0 then cand
    else
      assert dims[0] !in dims[1..] by {
        forall j | 0 <= j < |dims| - 1 ensures dims[1..][j] != dims[0] {
          assert dims[1..][j] == dims[j + 1];
        }
      }
      var c1 := Rewrite(orig, cand, dims[0], lvl, rng(k));
      var next := RewriteAll(orig, c1, dims[1..], lvl, rng, k + 1);
      assert forall d :: d in dims <==> d == dims[0] || d in dims[1..];
      next
  }

  /** Every dimension in `dims` of `next` differs from `orig` and lies in the level's domain. */
  predicate AllSettled(dims: seq<Dim>, orig: Tile, next: Tile, lvl: int) {
    AllDiffer(dims, orig, next) && AllInDomain(dims, next, lvl)
  }

  /** `b` differs from `a` in every dimension in `dims`. */
  predicate AllDiffer(dims: seq<Dim>, a: Tile, b: Tile) {
    (Shape in dims ==> a.shape != b.shape)
    && (Color in dims ==> a.color != b.color)
    && (Number in dims ==> a.number != b.number)
    && (Position in dims ==> a.position != b.position)
  }

  /** Every dimension in `dims` of `t` lies in the level's domain. */
  predicate AllInDomain(dims: seq<Dim>, t: Tile, lvl: int) {
    (Shape in dims ==> InDomain(Shape, t, lvl))
    && (Color in dims ==> InDomain(Color, t, lvl))
    && (Number in dims ==> InDomain(Number, t, lvl))
    && (Position in dims ==> InDomain(Position, t, lvl))
  }

  /** `b` agrees with `a` in every dimension outside `dims`. */
  predicate SameOutside(dims: seq<Dim>, a: Tile, b: Tile) {
    (Shape !in dims ==> a.shape == b.shape)
    && (Color !in dims ==> a.color == b.color)
    && (Number !in dims ==> a.number == b.number)
    && (Position !in dims ==> a.position == b.position)
  }

  /** `dimensions.filter(() => Math.random() < 0.5)`: one draw per dimension, in order. */
  function Selection(rng: Rng, k: nat): (dims: seq<Dim>)
    ensures forall d: Dim :: d in dims <==> rng(k + Rank(d)) < 0.5
    ensures Distinct(dims)
  {
    (if rng(k) < 0.5 then [Shape] else [])
    + (if rng(k + 1) < 0.5 then [Color] else [])
    + (if rng(k + 2) < 0.5 then [Number] else [])
    + (if rng(k + 3) < 0.5 then [Position] else [])
  }

  /** The dimensions one attempt changes, and the next unused draw: the filter's choice, or a
      single dimension drawn when the filter chose none. */
  function Changes(rng: Rng, k: nat): (res: (seq<Dim>, nat))
    ensures res.0 != [] && Distinct(res.0)
    ensures res.1 >= k + 4
    ensures Selection(rng, k) != [] ==> res.0 == Selection(rng, k)
    ensures Selection(rng, k) == [] ==> |res.0| == 1
  {
    var chosen := Selection(rng, k);
    if chosen != [] then (chosen, k + 4)
    else ([Dimensions[Index(rng(k + 4), |Dimensions|)]], k + 5)
  }

  /** One iteration of the retry loop: the candidate, and the next unused draw. */
  function Attempt(tile: Tile, lvl: int, rng: Rng, k: nat): (res: (Mutation, nat))
    ensures Distinct(res.0.rewritten) && res.0.rewritten != []
    ensures AllSettled(res.0.rewritten, tile, res.0.tile, lvl)
    ensures SameOutside(res.0.rewritten, tile, res.0.tile)
  {
    var (dims, next) := Changes(rng, k);
    var cand := RewriteAll(tile, tile, dims, lvl, rng, next);
    (Mutation(cand, dims), next + |dims|)
  }

  /** The fallback after the last attempt: exactly one drawn dimension is forced to change. */
  function Forced(tile: Tile, lvl: int, rng: Rng, k: nat): (m: Mutation)
    ensures |m.rewritten| == 1
    ensures AllSettled(m.rewritten, tile, m.tile, lvl)
    ensures SameOutside(m.rewritten, tile, m.tile)
  {
    var d := Dimensions[Index(rng(k), |Dimensions|)];
    var t := Rewrite(tile, tile, d, lvl, rng(k + 1));
    Mutation(t, [d])
  }

  /** The retry loop from attempt `attempt` on: the first candidate that differs from the
      input in some dimension, or the forced fallback once all attempts are spent. */
  function TryMutate(tile: Tile, lvl: int, rng: Rng, k: nat, attempt: nat): (m: Mutation)
    ensures Distinct(m.rewritten) && m.rewritten != []
    ensures AllSettled(m.rewritten, tile, m.tile, lvl)
    ensures SameOutside(m.rewritten, tile, m.tile)
    decreases Attempts - attempt
  {
    if attempt >= Attempts then Forced(tile, lvl, rng, k)
    else
      var (cand, next) := Attempt(tile, lvl, rng, k);
      if |ChangedDimensions(tile, cand.tile)| >= 1 then cand
      else TryMutate(tile, lvl, rng, next, attempt + 1)
  }

  /** `mutateTile(tile, lvl)`: a tile that differs from the input in at least one dimension;
      every rewritten value differs from the input's and comes from the level's domain,
      every other value is copied. */
  function MutateTile(tile: Tile, lvl: int, rng: Rng): (m: Mutation)
    ensures ChangedDimensions(tile, m.tile) != []
    ensures Distinct(m.rewritten)
    ensures AllSettled(m.rewritten, tile, m.tile, lvl)
    ensures SameOutside(m.rewritten, tile, m.tile)
  {
    var m := TryMutate(tile, lvl, rng, 0, 0);
    SettledAreChanged(m.rewritten, tile, m.tile);
    assert m.rewritten[0] in m.rewritten;
    m
  }

  /** When the dimensions in `dims` are settled and the others copied, the structural diff
      names exactly the dimensions in `dims`. */
  lemma SettledAreChanged(dims: seq<Dim>, orig: Tile, next: Tile)
    requires AllDiffer(dims, orig, next) && SameOutside(dims, orig, next)
    ensures forall d: Dim :: d in ChangedDimensions(orig, next) <==> d in dims
  {
    forall d: Dim ensures Differs(d, orig, next) <==> d in dims {
      match d
      case Shape =>
      case Color =>
      case Number =>
      case Position =>
    }
  }

  /** The diff between a tile and its mutation names exactly the rewritten dimensions. */
  lemma MutationDiff(tile: Tile, lvl: int, rng: Rng)
    ensures var m := MutateTile(tile, lvl, rng);
            forall d: Dim :: d in ChangedDimensions(tile, m.tile) <==> d in m.rewritten
  {
    var m := MutateTile(tile, lvl, rng);
    SettledAreChanged(m.rewritten, tile, m.tile);
  }

  /** The fallback changes exactly one dimension. */
  lemma ForcedChangesOne(tile: Tile, lvl: int, rng: Rng, k: nat)
    ensures |ChangedDimensions(tile, Forced(tile, lvl, rng, k).tile)| == 1
  {
    var m := Forced(tile, lvl, rng, k);
    var d := m.rewritten[0];
    assert m.rewritten == [d];
    SingleChange(tile, m.tile, d);
  }

  /** Tiles that differ in `d` and agree everywhere else have the diff `[d]`. */
  lemma SingleChange(a: Tile, b: Tile, d: Dim)
    requires AllDiffer([d], a, b) && SameOutside([d], a, b)
    ensures ChangedDimensions(a, b) == [d]
  {
    match d
    case Shape =>
    case Color =>
    case Number =>
    case Position =>
  }

  /** Every dimension chosen by a draw really changes, so the first attempt always succeeds
      and the retry loop and its fallback are never reached. */
  lemma FirstAttemptSucceeds(tile: Tile, lvl: int, rng: Rng)
    ensures MutateTile(tile, lvl, rng) == Attempt(tile, lvl, rng, 0).0
    ensures MutateTile(tile, lvl, rng).rewritten == Changes(rng, 0).0
  {
  }
}
