/** Guess evaluation from score.js: comparing one dimension of the two tiles, counting the
    guess, and scheduling a new round after the fourth guess of a round. */
module Scoring {
  import opened Wrappers
  import opened Random
  import opened Logic
  import opened GameState
  import opened Round
  import TileBoard

  /** The record of one guess: the game afterwards, the comparison's outcome, and whether
      `startRound` is scheduled. */
  datatype Guessed = Guessed(game: Game, correct: bool, newRound: bool)

  /** `state.previousTile[dimension] === state.currentTile[dimension]`. A missing tile throws;
      the empty object `{}` has no fields, so it never matches; shape, colour and number are
      primitive values compared by value, and position arrays are compared by identity. */
  function Compare(st: State, dim: Dim): (r: Result<bool, RoundError>)
    ensures r.Success? <==> st.previousTile.Some? && st.currentTile != Null
    ensures r.Success? && st.currentTile.Blank? ==> !r.value
    ensures r.Success? && st.currentTile.Filled? && dim != Position ==>
              (r.value <==> !Differs(dim, st.previousTile.value, st.currentTile.tile))
    ensures r.Success? && st.currentTile.Filled? && dim == Position ==> r.value == st.sharedPosition
  {
    match (st.previousTile, st.currentTile)
    case (None, _) => Failure(TypeError)
    case (_, Null) => Failure(TypeError)
    case (Some(_), Blank) => Success(false)
    case (Some(prev), Filled(cur)) =>
      Success(match dim
        case Shape => prev.shape == cur.shape
        case Color => prev.color == cur.color
        case Number => prev.number == cur.number
        case Position => st.sharedPosition)
  }

  /** `guess(dimension)` at time `time`: compares, counts and logs the guess, then reads both
      counters back from storage and schedules a new round when they add up to 4. */
  function Guess(g: Game, dim: Dim, time: string): (r: Result<Guessed, RoundError>)
    ensures r.Success? <==> g.state.previousTile.Some? && g.state.currentTile != Null
    ensures r.Success? ==> r.value.correct == Compare(g.state, dim).value
    ensures r.Success? && r.value.correct ==>
              r.value.game.state.scoreCorrect == g.state.scoreCorrect + 1
              && r.value.game.state.scoreWrong == g.state.scoreWrong
    ensures r.Success? && !r.value.correct ==>
              r.value.game.state.scoreWrong == g.state.scoreWrong + 1
              && r.value.game.state.scoreCorrect == g.state.scoreCorrect
    ensures r.Success? ==>
              (r.value.newRound <==>
                 StoredCounter(r.value.game.store, CorrectKey) + StoredCounter(r.value.game.store, WrongKey) == 4)
    ensures r.Success? && CountersSynced(g) ==>
              CountersSynced(r.value.game)
              && (r.value.newRound <==> g.state.scoreCorrect + g.state.scoreWrong + 1 == 4)
    ensures r.Success? ==>
              r.value.game.state.previousTile == g.state.previousTile
              && r.value.game.state.currentTile == g.state.currentTile
              && r.value.game.state.sharedPosition == g.state.sharedPosition
  {
    match Compare(g.state, dim)
    case Failure(e) => Failure(e)
    case Success(result) =>
      var next := UpdateScore(g, result, time);
      UpdateScoreKeepsSync(g, result, time);
      var total := StoredCounter(next.store, CorrectKey) + StoredCounter(next.store, WrongKey);
      Success(Guessed(next, result, total == 4))
  }

  /** Before the first round starts both tiles are `null`, so a guess throws and leaves the
      counters and the storage as they were, and so does a reveal. */
  lemma GuessBeforeStartThrows(store: Store, level: int, dim: Dim, time: string, rng: Rng)
    ensures Guess(Game(Initial, store), dim, time) == Failure(TypeError)
    ensures RevealStep(Session(level, Game(Initial, store)), rng) == Failure(TypeError)
  {
  }

  /** Once a round is revealed, a guess on a dimension is correct exactly when the mutation
      left that dimension unchanged; for position this holds because an unchanged position is
      the previous tile's own array. */
  lemma GuessAfterReveal(s: Session, rngStart: Rng, rngReveal: Rng, dim: Dim, time: string)
    ensures var started := StartStep(s, true, rngStart);
            var revealed := RevealStep(started, rngReveal).value;
            var prev := started.game.state.previousTile.value;
            var cur := revealed.game.state.currentTile.tile;
            var r := Guess(revealed.game, dim, time);
            && r.Success?
            && (r.value.correct <==> dim !in ChangedDimensions(prev, cur))
  {
    StartThenReveal(s, rngStart, rngReveal);
  }

  /** A run of guesses on an unchanging round, one time stamp per guess: the new-round flag
      of each guess in order. */
  function Play(g: Game, dims: seq<Dim>, times: seq<string>): (flags: seq<bool>)
    requires g.state.previousTile.Some? && g.state.currentTile != Null
    requires |times| == |dims|
    ensures |flags| == |dims|
    decreases |dims|
  {
    if |dims| == 0 then []
    else
      var r := Guess(g, dims[0], times[0]).value;
      [r.newRound] + Play(r.game, dims[1..], times[1..])
  }

  /** With the counters in storage matching memory, the i-th guess of a run schedules a new
      round exactly when it brings the total number of guesses to 4. */
  lemma {:induction false} PlayFlags(g: Game, dims: seq<Dim>, times: seq<string>)
    requires g.state.previousTile.Some? && g.state.currentTile != Null
    requires |times| == |dims|
    requires CountersSynced(g)
    ensures forall i | 0 <= i < |dims| ::
              Play(g, dims, times)[i] <==> g.state.scoreCorrect + g.state.scoreWrong + i + 1 == 4
    decreases |dims|
  {
    if |dims| > 0 {
      var r := Guess(g, dims[0], times[0]).value;
      GuessStep(g, dims[0], times[0]);
      PlayFlags(r.game, dims[1..], times[1..]);
      PlayUnfold(g, dims, times);
      var base := g.state.scoreCorrect + g.state.scoreWrong;
      var rest := Play(r.game, dims[1..], times[1..]);
      assert Play(g, dims, times) == [r.newRound] + rest;
      forall i | 0 <= i < |dims|
        ensures Play(g, dims, times)[i] <==> base + i + 1 == 4
      {
        if i > 0 {
          assert Play(g, dims, times)[i] == rest[i - 1];
        }
      }
    }
  }

  /** One guess on a synced game keeps it synced and ready, and adds one to the total. */
  lemma GuessStep(g: Game, dim: Dim, time: string)
    requires g.state.previousTile.Some? && g.state.currentTile != Null
    requires CountersSynced(g)
    ensures var r := Guess(g, dim, time).value;
            && CountersSynced(r.game)
            && r.game.state.previousTile.Some? && r.game.state.currentTile != Null
            && r.game.state.scoreCorrect + r.game.state.scoreWrong == g.state.scoreCorrect + g.state.scoreWrong + 1
            && (r.newRound <==> g.state.scoreCorrect + g.state.scoreWrong + 1 == 4)
  {
  }

  /** A run of guesses is its first guess's flag followed by the rest of the run. */
  lemma PlayUnfold(g: Game, dims: seq<Dim>, times: seq<string>)
    requires g.state.previousTile.Some? && g.state.currentTile != Null
    requires |times| == |dims| > 0
    ensures var r := Guess(g, dims[0], times[0]).value;
            Play(g, dims, times) == [r.newRound] + Play(r.game, dims[1..], times[1..])
  {
  }

  /** After a start and its reveal, the fourth guess, and only the fourth, schedules the next
      round. */
  lemma FourthGuessStartsRound(s: Session, rngStart: Rng, rngReveal: Rng, dims: seq<Dim>, times: seq<string>)
    requires |times| == |dims|
    ensures var revealed := RevealStep(StartStep(s, true, rngStart), rngReveal);
            && revealed.Success?
            && var flags := Play(revealed.value.game, dims, times);
               forall i | 0 <= i < |dims| :: flags[i] <==> i == 3
  {
    StartThenReveal(s, rngStart, rngReveal);
    var revealed := RevealStep(StartStep(s, true, rngStart), rngReveal).value;
    PlayFlags(revealed.game, dims, times);
  }

  /** The labels score.js's `calculateScore` writes onto the tiles (correct guesses, wrong
      guesses, missed tiles) are exactly what `getTileFeedback` reports for those indices. */
  lemma ReportLabelsMatchFeedback(selected: seq<int>, correct: seq<int>)
    ensures var r := TileBoard.CalculateScore(selected, correct);
            && (forall i | i in r.correctGuesses :: TileBoard.GetTileFeedback(i, selected, correct) == TileBoard.Correct)
            && (forall i | i in r.wrongGuesses :: TileBoard.GetTileFeedback(i, selected, correct) == TileBoard.Wrong)
            && (forall i | i in r.missed :: TileBoard.GetTileFeedback(i, selected, correct) == TileBoard.Missed)
  {
    var r := TileBoard.CalculateScore(selected, correct);
    forall i | i in r.correctGuesses || i in r.wrongGuesses
      ensures i in selected
    {
      assert i in multiset(r.correctGuesses) + multiset(r.wrongGuesses);
    }
  }
}
