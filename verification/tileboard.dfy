/** The multi-tile variant of tile.js: a board of tiles laid out on the grid, a copy with
    some tiles' shapes changed, and the feedback and score of a selection of tiles. */
module TileBoard {
  import opened Wrappers
  import opened Seqs
  import opened Random
  import Emoji
  import Logic

  /** One board tile. Every field can be `undefined` (`None`) when the array it is drawn
      from is empty. */
  datatype Cell = Cell(shape: Option<Emoji.Shape>, number: Option<int>, position: Option<Logic.Pos>)

  /** `arr[i]`: the entry, or `undefined` past the end. */
  function At<T>(arr: seq<T>, i: nat): (r: Option<T>)
    ensures r.Some? <==> i < |arr|
    ensures r.Some? ==> r.value == arr[i]
  {
    if i < |arr| then Some(arr[i]) else None
  }

  /** `Array.from({ length: n }, (_, i) => i + 1)`: 1 to n, empty for n <= 0. */
  function NumberPool(n: int): (ns: seq<int>)
    ensures |ns| == if n <= 0 then 0 else n
    ensures forall i | 0 <= i < |ns| :: ns[i] == i + 1
    ensures forall x | x in ns :: 1 <= x <= n
  {
    if n <= 0 then [] else seq(n, i requires 0 <= i < n => i + 1)
  }

  /** `getGridPositions(gridSize)`: the same row-major enumeration as the single-tile engine's. */
  function GridPositions(gridSize: int): (ps: seq<Logic.Pos>)
    ensures |ps| == if gridSize <= 0 then 0 else gridSize * gridSize
    ensures forall i | 0 <= i < |ps| :: Logic.InGrid(ps[i], gridSize)
    ensures forall r, c | 0 <= r < gridSize && 0 <= c < gridSize :: Logic.CellAt(ps, gridSize, 0, r, c)
    ensures Distinct(ps)
  {
    var ps := Logic.GridPositions(gridSize);
    assert forall i | 0 <= i < |ps| :: ps[i] in ps;
    ps
  }

  /** `generateRandomTiles(gridSize, shapePoolSize, numberPoolSize)`. `shuffled` is SHAPES after
      the random in-place sort, so any ordering of it; tile `i` draws its shape from `rng(2i)`
      and its number from `rng(2i + 1)`. Tile `i` sits at entry `i` of the grid enumeration
      (nowhere when the side is negative), has a number from 1 to `numberPoolSize` unless that
      is not positive, and a shape from the first `shapePoolSize` shuffled entries unless that
      slice is empty. */
  function GenerateRandomTiles(gridSize: int, shapePoolSize: int, numberPoolSize: int,
                               shuffled: seq<Emoji.Shape>, rng: Rng): (tiles: seq<Cell>)
    requires multiset(shuffled) == multiset(Emoji.Shapes)
    ensures |tiles| == gridSize * gridSize
    ensures forall i | 0 <= i < |tiles| ::
              && tiles[i].position == (if gridSize > 0 then Some(GridPositions(gridSize)[i]) else None)
              && (tiles[i].number.Some? <==> numberPoolSize > 0)
              && (tiles[i].number.Some? ==> 1 <= tiles[i].number.value <= numberPoolSize)
              && (tiles[i].shape.Some? <==> Take(shuffled, shapePoolSize) != [])
              && (tiles[i].shape.Some? ==> tiles[i].shape.value in Take(shuffled, shapePoolSize))
  {
    var positions := GridPositions(gridSize);
    var tiles := Board(Square(gridSize), Take(shuffled, shapePoolSize), NumberPool(numberPoolSize), positions, rng);
    BoardFacts(gridSize, Take(shuffled, shapePoolSize), numberPoolSize, positions, rng);
    tiles
  }

  /** What each tile of a board over the grid of side `gridSize` holds. */
  lemma BoardFacts(gridSize: int, shapes: seq<Emoji.Shape>, numberPoolSize: int,
                   positions: seq<Logic.Pos>, rng: Rng)
    requires |positions| == if gridSize <= 0 then 0 else Square(gridSize)
    ensures var tiles := Board(Square(gridSize), shapes, NumberPool(numberPoolSize), positions, rng);
            forall i | 0 <= i < |tiles| ::
              && tiles[i].position == (if gridSize > 0 then Some(positions[i]) else None)
              && (tiles[i].number.Some? <==> numberPoolSize > 0)
              && (tiles[i].number.Some? ==> 1 <= tiles[i].number.value <= numberPoolSize)
              && (tiles[i].shape.Some? <==> shapes != [])
              && (tiles[i].shape.Some? ==> tiles[i].shape.value in shapes)
  {
    var numbers := NumberPool(numberPoolSize);
    var tiles := Board(Square(gridSize), shapes, numbers, positions, rng);
    forall i | 0 <= i < |tiles|
      ensures tiles[i].position == (if gridSize > 0 then Some(positions[i]) else None)
      ensures tiles[i].number.Some? ==> 1 <= tiles[i].number.value <= numberPoolSize
    {
      assert tiles[i] == BoardCell(shapes, numbers, positions, rng, i);
    }
  }

  /** The `total` tiles the loop of `generateRandomTiles` pushes. */
  function Board(total: nat, shapes: seq<Emoji.Shape>, numbers: seq<int>, positions: seq<Logic.Pos>,
                 rng: Rng): (tiles: seq<Cell>)
    ensures |tiles| == total
    ensures forall i | 0 <= i < total :: tiles[i] == BoardCell(shapes, numbers, positions, rng, i)
  {
    seq(total, i requires 0 <= i < total => BoardCell(shapes, numbers, positions, rng, i))
  }

  function Square(n: int): (sq: nat)
    ensures sq == n * n
  {
    if n < 0 then (-n) * (-n) else n * n
  }

  /** Tile `i` of `generateRandomTiles`: a drawn shape, a drawn number and grid position `i`. */
  function BoardCell(shapes: seq<Emoji.Shape>, numbers: seq<int>, positions: seq<Logic.Pos>,
                     rng: Rng, i: nat): (c: Cell)
    ensures c.shape.Some? <==> |shapes| > 0
    ensures c.shape.Some? ==> c.shape.value in shapes
    ensures c.number.Some? <==> |numbers| > 0
    ensures c.number.Some? ==> c.number.value in numbers
    ensures c.position == At(positions, i)
  {
    Cell(At(shapes, Index(rng(2 * i), |shapes|)), At(numbers, Index(rng(2 * i + 1), |numbers|)), At(positions, i))
  }

  /** A pool size from 1 to 19 gives every tile a shape from the first `shapePoolSize`
      entries of the shuffled list; size 0 gives none. */
  lemma ShapePoolSizes(gridSize: int, shapePoolSize: int, numberPoolSize: int,
                       shuffled: seq<Emoji.Shape>, rng: Rng, i: nat)
    requires multiset(shuffled) == multiset(Emoji.Shapes)
    requires i < gridSize * gridSize
    ensures var cell := GenerateRandomTiles(gridSize, shapePoolSize, numberPoolSize, shuffled, rng)[i];
            && (1 <= shapePoolSize <= |Emoji.Shapes| ==> cell.shape.Some? && cell.shape.value in shuffled[..shapePoolSize])
            && (shapePoolSize == 0 ==> cell.shape.None?)
  {
    assert |shuffled| == |Emoji.Shapes| by {
      assert |multiset(shuffled)| == |multiset(Emoji.Shapes)|;
    }
    TakeFront(shuffled, shapePoolSize);
  }

  /** `slice(0, n)` for `n` from 1 to the length is the non-empty prefix of length `n`. */
  lemma TakeFront<T>(s: seq<T>, n: int)
    ensures 1 <= n <= |s| ==> Take(s, n) == s[..n] && Take(s, n) != []
    ensures n == 0 ==> Take(s, n) == []
  {
  }

  /** How `createModifiedTiles` ends. `Unfinished` means the random draws allowed by the fuel
      were used up while a loop was still running. */
  datatype Outcome =
    | Modified(tiles: seq<Cell>, changed: seq<nat>)
    | TypeError
    | Unfinished

  /** `createModifiedTiles(originalTiles, changes)`: copies the tiles, draws indices until
      `changes` different ones are chosen, and gives each chosen tile a new shape drawn from
      `shapes` until it differs from the old one. `shapes` is `SHAPES` as it stands at the call:
      `generateRandomTiles` sorts that array in place, so it is some permutation of the
      declared list. Draws come from `rng` in order; at most `fuel` of them are made. */
  method CreateModifiedTiles(original: seq<Cell>, changes: int, shapes: seq<Emoji.Shape>, rng: Rng, fuel: nat)
    returns (out: Outcome)
    requires |shapes| > 0 && forall s | s in shapes :: s in Emoji.Shapes
    ensures out.Modified? ==>
              |out.tiles| == |original| && Distinct(out.changed)
              && |out.changed| == (if changes <= 0 then 0 else changes)
              && (forall i | i in out.changed :: i < |original|)
    ensures out.Modified? ==>
              forall i | 0 <= i < |original| ::
                (i in out.changed ==>
                   out.tiles[i].shape.Some? && out.tiles[i].shape.value in shapes
                   && out.tiles[i].shape.value in Emoji.Shapes
                   && out.tiles[i].shape != original[i].shape
                   && out.tiles[i] == original[i].(shape := out.tiles[i].shape))
                && (i !in out.changed ==> out.tiles[i] == original[i])
    ensures changes <= 0 ==> out == Modified(original, [])
    ensures changes > |original| ==> !out.Modified?
    ensures out.TypeError? <==> |original| == 0 && changes == 1 && fuel > 0
  {
    var tiles := original;
    var chosen: seq<nat> := [];
    var k: nat := 0;
    while |chosen| < changes
      invariant Distinct(chosen)
      invariant forall x | x in chosen :: if |original| == 0 then x == 0 else x < |original|
      invariant k <= fuel
      invariant |chosen| <= k
      invariant |chosen| == 0 || |chosen| <= changes
      invariant |original| == 0 && k > 0 ==> chosen == [0]
      decreases fuel - k
    {
      if k == fuel {
        if |original| > 0 {
          DistinctBelow(chosen, |original|);
        } else {
          DistinctBelow(chosen, 1);
        }
        return Unfinished;
      }
      var index := Index(rng(k), |tiles|);
      k := k + 1;
      if index !in chosen {
        DistinctAppend(chosen, index);
        chosen := chosen + [index];
      }
    }
    if |original| == 0 && |chosen| > 0 {
      DistinctBelow(chosen, 1);
      assert chosen[0] in chosen;
      return TypeError;
    }
    if |original| > 0 {
      DistinctBelow(chosen, |original|);
    }
    out := Reshape(original, chosen, shapes, rng, k, fuel);
  }

  /** The second half of `createModifiedTiles`: each chosen tile in turn gets shapes drawn
      from `shapes`, starting at draw `k`, until one differs from its old shape. */
  method Reshape(original: seq<Cell>, chosen: seq<nat>, shapes: seq<Emoji.Shape>, rng: Rng, k0: nat, fuel: nat)
    returns (out: Outcome)
    requires |shapes| > 0 && forall s | s in shapes :: s in Emoji.Shapes
    requires Distinct(chosen) && (forall i | i in chosen :: i < |original|)
    requires k0 <= fuel
    ensures !out.TypeError?
    ensures chosen == [] ==> out == Modified(original, [])
    ensures out.Modified? ==>
              |out.tiles| == |original| && out.changed == chosen
              && forall i | 0 <= i < |original| ::
                   (i in chosen ==>
                      out.tiles[i].shape.Some? && out.tiles[i].shape.value in shapes
                      && out.tiles[i].shape.value in Emoji.Shapes
                      && out.tiles[i].shape != original[i].shape
                      && out.tiles[i] == original[i].(shape := out.tiles[i].shape))
                   && (i !in chosen ==> out.tiles[i] == original[i])
  {
    var tiles := original;
    var k: nat := k0;
    var j := 0;
    while j < |chosen|
      invariant 0 <= j <= |chosen|
      invariant k <= fuel
      invariant |tiles| == |original|
      invariant forall i | 0 <= i < |original| ::
                  (i in chosen[..j] ==>
                     tiles[i].shape.Some? && tiles[i].shape.value in shapes
                     && tiles[i].shape.value in Emoji.Shapes
                     && tiles[i].shape != original[i].shape
                     && tiles[i] == original[i].(shape := tiles[i].shape))
                  && (i !in chosen[..j] ==> tiles[i] == original[i])
      decreases |chosen| - j, fuel - k
    {
      var index := chosen[j];
      assert index in chosen;
      if k == fuel {
        return Unfinished;
      }
      var shape := DrawFromShapes(shapes, rng(k));
      k := k + 1;
      while Some(shape) == tiles[index].shape
        invariant k <= fuel
        invariant shape in shapes && shape in Emoji.Shapes
        decreases fuel - k
      {
        if k == fuel {
          return Unfinished;
        }
        shape := DrawFromShapes(shapes, rng(k));
        k := k + 1;
      }
      assert index !in chosen[..j] by {
        forall m | 0 <= m < j ensures chosen[m] != index {
        }
      }
      assert tiles[index] == original[index];
      var before := tiles;
      tiles := tiles[index := tiles[index].(shape := Some(shape))];
      assert chosen[..j + 1] == chosen[..j] + [index];
      forall i | 0 <= i < |original| && i != index ensures tiles[i] == before[i] {
      }
      j := j + 1;
    }
    assert chosen[..j] == chosen;
    return Modified(tiles, chosen);
  }

  /** `SHAPES[Math.floor(Math.random() * SHAPES.length)]` on a reordering of `SHAPES`:
      a declared shape. */
  function DrawFromShapes(shapes: seq<Emoji.Shape>, r: Unit): (s: Emoji.Shape)
    requires |shapes| > 0 && forall s | s in shapes :: s in Emoji.Shapes
    ensures s in shapes && s in Emoji.Shapes
  {
    Draw(shapes, r)
  }

  /** `SHAPES` after the in-place sort of `generateRandomTiles` still meets what
      `createModifiedTiles` asks of its catalogue. */
  lemma ShuffledShapesQualify(shuffled: seq<Emoji.Shape>)
    requires multiset(shuffled) == multiset(Emoji.Shapes)
    ensures |shuffled| > 0 && forall s | s in shuffled :: s in Emoji.Shapes
  {
    assert |shuffled| == |Emoji.Shapes| by {
      assert |multiset(shuffled)| == |multiset(Emoji.Shapes)|;
    }
    forall s | s in shuffled ensures s in Emoji.Shapes {
      assert s in multiset(shuffled);
    }
  }

  lemma DistinctAppend<T>(s: seq<T>, x: T)
    requires Distinct(s) && x !in s
    ensures Distinct(s + [x])
  {
    DistinctConcat(s, [x]);
  }

  /** A tile's state after a round: which of the two lists its index is in. */
  datatype Feedback = Correct | Wrong | Missed | Unmarked

  /** `getTileFeedback(index, selected, changed)`; `Unmarked` stands for `null`. */
  function GetTileFeedback(index: int, selected: seq<int>, changed: seq<int>): (f: Feedback)
    ensures f == Correct <==> index in selected && index in changed
    ensures f == Wrong <==> index in selected && index !in changed
    ensures f == Missed <==> index !in selected && index in changed
    ensures f == Unmarked <==> index !in selected && index !in changed
  {
    if index in selected && index in changed then Correct
    else if index in selected && index !in changed then Wrong
    else if index !in selected && index in changed then Missed
    else Unmarked
  }

  /** The object `calculateScore` returns. */
  datatype ScoreReport = ScoreReport(correctGuesses: seq<int>, wrongGuesses: seq<int>, missed: seq<int>, score: int)

  /** `calculateScore(selected, correct)`: the selection split by membership in `correct`,
      the correct indices not selected, and one point up per hit and down per miss. */
  function CalculateScore(selected: seq<int>, correct: seq<int>): (r: ScoreReport)
    ensures multiset(r.correctGuesses) + multiset(r.wrongGuesses) == multiset(selected)
    ensures IsSubseq(r.correctGuesses, selected) && IsSubseq(r.wrongGuesses, selected)
    ensures forall i | i in r.correctGuesses :: i in correct
    ensures forall i | i in r.wrongGuesses :: i !in correct
    ensures IsSubseq(r.missed, correct)
    ensures forall i | i in r.missed :: i in correct && i !in selected
    ensures forall i | i in correct && i !in selected :: i in r.missed
    ensures forall x :: multiset(r.missed)[x] == if x in selected then 0 else multiset(correct)[x]
    ensures r.score == |r.correctGuesses| - |r.wrongGuesses| == 2 * |r.correctGuesses| - |selected|
  {
    var hits := Keep(selected, correct);
    var misses := Drop(selected, correct);
    var missed := Drop(correct, selected);
    KeepDropPartition(selected, correct);
    assert |multiset(hits)| + |multiset(misses)| == |multiset(selected)|;
    KeepIsSubseq(selected, correct);
    DropIsSubseq(selected, correct);
    DropIsSubseq(correct, selected);
    MissedCounts(selected, correct);
    ScoreReport(hits, misses, missed, |hits| - |misses|)
  }

  /** `correct.filter(i => !selectedSet.has(i))` keeps every occurrence of an unselected
      index and drops every occurrence of a selected one. */
  lemma MissedCounts(selected: seq<int>, correct: seq<int>)
    ensures forall x :: multiset(Drop(correct, selected))[x]
                        == if x in selected then 0 else multiset(correct)[x]
  {
    KeepDropPartition(correct, selected);
    forall x ensures multiset(Drop(correct, selected))[x] == if x in selected then 0 else multiset(correct)[x] {
      if x in selected {
        assert x !in Drop(correct, selected);
      } else {
        assert x !in Keep(correct, selected);
      }
    }
  }

  /** The feedback of every tile agrees with the score report: a selected tile is correct
      exactly when it is among the correct guesses and wrong exactly when it is among the
      wrong ones, and an unselected tile is missed exactly when the report lists it. */
  lemma FeedbackMatchesReport(index: int, selected: seq<int>, changed: seq<int>)
    ensures var r := CalculateScore(selected, changed);
            var f := GetTileFeedback(index, selected, changed);
            && (f == Correct <==> index in r.correctGuesses)
            && (f == Wrong <==> index in r.wrongGuesses)
            && (f == Missed <==> index in r.missed)
  {
    var r := CalculateScore(selected, changed);
    if index in selected {
      assert index in multiset(selected);
    }
    assert index in r.correctGuesses ==> index in multiset(r.correctGuesses);
    assert index in r.wrongGuesses ==> index in multiset(r.wrongGuesses);
  }
}
