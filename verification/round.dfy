/** The two steps of `startRound` in round.js: the start, which resets the score and shows a
    fresh tile, and the reveal that the timer runs later, which shows a mutation of it. */
module Round {
  import opened Wrappers
  import opened Random
  import opened Logic
  import opened GameState

  /** The game as the round code sees it: the module-level `level` of logic.js and the game. */
  datatype Session = Session(level: int, game: Game)

  /** `null` dereferenced: reading a field of, or assigning into, a missing tile. */
  datatype RoundError = TypeError

  /** The start step. Without a canvas or a 2D context it returns at once; otherwise it resets
      the score, makes sure both tile objects exist, and assigns a generated tile for the
      current level to the previous tile. The current tile keeps its fields, but its position
      is no longer the previous tile's array. */
  function StartStep(s: Session, canvasReady: bool, rng: Rng): (r: Session)
    ensures !canvasReady ==> r == s
    ensures canvasReady ==>
              var st := r.game.state;
              && r.level == s.level
              && st.scoreCorrect == 0 && st.scoreWrong == 0 && CountersSynced(r.game)
              && st.previousTile == Some(GenerateRandomTile(s.level, rng))
              && InLevelDomains(st.previousTile.value, s.level)
              && st.currentTile != Null
              && (s.game.state.currentTile != Null ==> st.currentTile == s.game.state.currentTile)
              && !st.sharedPosition
              && st.gameHistory == s.game.state.gameHistory
  {
    if !canvasReady then s
    else
      var reset := ResetScore(s.game);
      var current := if reset.state.currentTile.Null? then Blank else reset.state.currentTile;
      var generated := GenerateRandomTile(s.level, rng);
      var st := reset.state.(previousTile := Some(generated), currentTile := current, sharedPosition := false);
      Session(s.level, Game(st, reset.store))
  }

  /** The reveal step: the current tile takes every field of a mutation of the previous tile.
      Unchanged fields are copied from the previous tile, so an unchanged position is the same
      array object. The code's guard against a mutation without a position is not modelled:
      every `Logic.Tile` has a position, so a mutation always has one. */
  function RevealStep(s: Session, rng: Rng): (r: Result<Session, RoundError>)
    ensures r.Success? <==> s.game.state.previousTile.Some? && s.game.state.currentTile != Null
    ensures r.Success? ==>
              var st := r.value.game.state;
              var prev := s.game.state.previousTile.value;
              var m := MutateTile(prev, s.level, rng);
              && r.value.level == s.level
              && st.currentTile == Filled(m.tile)
              && ChangedDimensions(prev, m.tile) != []
              && AllInDomain(m.rewritten, m.tile, s.level)
              && (st.sharedPosition <==> Position !in ChangedDimensions(prev, m.tile))
              && st == s.game.state.(currentTile := st.currentTile, sharedPosition := st.sharedPosition)
              && r.value.game.store == s.game.store
  {
    match s.game.state.previousTile
    case None => Failure(TypeError)
    case Some(prev) =>
      if s.game.state.currentTile.Null? then Failure(TypeError)
      else
        var m := MutateTile(prev, s.level, rng);
        MutationDiff(prev, s.level, rng);
        var st := s.game.state.(currentTile := Filled(m.tile), sharedPosition := Position !in m.rewritten);
        Success(Session(s.level, Game(st, s.game.store)))
  }

  /** A started round can always be revealed, and the revealed tile differs from the one shown
      first in at least one dimension. */
  lemma StartThenReveal(s: Session, rngStart: Rng, rngReveal: Rng)
    ensures RevealStep(StartStep(s, true, rngStart), rngReveal).Success?
    ensures var started := StartStep(s, true, rngStart);
            var revealed := RevealStep(started, rngReveal).value;
            && revealed.game.state.currentTile.Filled?
            && started.game.state.previousTile.Some?
            && revealed.game.state.previousTile == started.game.state.previousTile
            && ChangedDimensions(started.game.state.previousTile.value, revealed.game.state.currentTile.tile) != []
  {
  }
}
