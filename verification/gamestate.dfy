/** The score bookkeeping of state.js: the shared `state` record and the counters and guess
    history it mirrors into `localStorage`, modelled as a map from keys to stored values. */
module GameState {
  import opened Wrappers
  import opened JsText
  import Logic

  /** One logged guess: its ISO timestamp and a tick or a cross. */
  datatype Entry = Entry(time: string, result: string)

  const Tick: string := "✅"
  const Cross: string := "❌"

  /** What a storage key holds: plain text, or the `JSON.stringify` text of a list of
      entries, kept here as the list itself. */
  datatype Stored = Text(text: string) | Log(entries: seq<Entry>)

  type Store = map<string, Stored>

  const CorrectKey: string := "correct"
  const WrongKey: string := "wrong"
  const HistoryKey: string := "history"

  /** `state.currentTile`: `null` before the first round, `{}` once a round has started but
      before its reveal, then the revealed tile. */
  datatype Slot = Null | Blank | Filled(tile: Logic.Tile)

  /** The `state` record. `sharedPosition` records whether `currentTile.position` is the very
      array object `previousTile.position` holds, which is what `===` compares for positions. */
  datatype State = State(
    previousTile: Option<Logic.Tile>,
    currentTile: Slot,
    scoreCorrect: int,
    scoreWrong: int,
    gameHistory: seq<Entry>,
    sharedPosition: bool)

  /** The record as the module declares it. */
  const Initial: State := State(None, Null, 0, 0, [], false)

  /** The in-memory record together with the browser storage. */
  datatype Game = Game(state: State, store: Store)

  /** The text `parseInt` sees for `localStorage.getItem(key)`: `null` becomes "null",
      and a stored entry list is its `JSON.stringify` text. */
  function ItemText(store: Store, key: string): string {
    if key !in store then "null"
    else match store[key]
      case Text(t) => t
      case Log(es) => EntriesJson(es)
  }

  /** `JSON.stringify` of a list of entries. */
  function EntriesJson(es: seq<Entry>): (json: string)
    ensures |json| > 0 && json[0] == '['
  {
    "[" + EntryItems(es) + "]"
  }

  /** The entries' objects, separated by commas. */
  function EntryItems(es: seq<Entry>): string
    decreases |es|
  {
    if |es| == 0 then ""
    else EntryJson(es[0]) + (if |es| == 1 then "" else "," + EntryItems(es[1..]))
  }

  function EntryJson(e: Entry): string {
    "{\"time\":\"" + e.time + "\",\"result\":\"" + e.result + "\"}"
  }

  /** What `parseInt(localStorage.getItem(key)) || 0` yields: the stored text read as an
      integer, and 0 when it reads as `NaN`. A missing key and a stored entry list both
      read as `NaN` (`AbsentAndListReadAsNaN`), hence 0; `StoredCounterReadsItem` states the
      whole expression. */
  function StoredCounter(store: Store, key: string): (n: int)
    ensures key !in store ==> n == 0
    ensures key in store && store[key].Log? ==> n == 0
    ensures key in store && store[key].Text? ==> n == ReadCounter(store[key].text)
  {
    if key !in store then 0
    else match store[key]
      case Text(t) => ReadCounter(t)
      case Log(_) => 0
  }

  /** The stored counter is `parseInt(getItem(key)) || 0` of the very text `getItem` returns. */
  lemma StoredCounterReadsItem(store: Store, key: string)
    ensures StoredCounter(store, key) == ReadCounter(ItemText(store, key))
  {
    if key !in store {
      AbsentAndListReadAsNaN("");
    } else if store[key].Log? {
      var json := EntriesJson(store[key].entries);
      assert json == "[" + json[1..];
      AbsentAndListReadAsNaN(json[1..]);
    }
  }

  /** The texts behind the two zero cases of `StoredCounter` read as `NaN`, so `|| 0`
      turns them into 0. */
  lemma AbsentAndListReadAsNaN(rest: string)
    ensures ParseInt("null").None? && ParseInt("[" + rest).None?
    ensures ReadCounter("null") == 0
    ensures ReadCounter("[" + rest) == 0
  {
    NonNumberIsNaN("null");
    NonNumberIsNaN("[" + rest);
  }

  /** Text that starts with a character that is neither blank, a sign nor a digit. */
  lemma NonNumberIsNaN(t: string)
    requires |t| > 0 && !IsSpace(t[0]) && t[0] != '-' && t[0] != '+' && !('0' <= t[0] <= '9')
    ensures ParseInt(t).None?
  {
    assert TrimStart(t) == t;
    ParseIntNaN(t);
  }

  /** `parseInt(text) || 0`. */
  function ReadCounter(text: string): (n: int)
    ensures ParseInt(text).Some? ==> n == ParseInt(text).value
    ensures ParseInt(text).None? ==> n == 0
  {
    match ParseInt(text)
    case Some(v) => v
    case None => 0
  }

  /** A counter stored as the text of a number reads back as that number. */
  lemma StoredNumber(store: Store, key: string, n: int)
    requires key in store && store[key] == Text(IntToText(n))
    ensures StoredCounter(store, key) == n
  {
    ParseIntRoundTrip(n);
  }

  /** The stored counters agree with the in-memory ones. */
  predicate CountersSynced(g: Game) {
    StoredCounter(g.store, CorrectKey) == g.state.scoreCorrect
    && StoredCounter(g.store, WrongKey) == g.state.scoreWrong
  }

  /** `resetScore()`: both counters to 0 in memory and in storage, and the stored history to
      an empty list. The in-memory history is left as it is. */
  function ResetScore(g: Game): (r: Game)
    ensures r.state.scoreCorrect == 0 && r.state.scoreWrong == 0
    ensures CountersSynced(r)
    ensures HistoryKey in r.store && r.store[HistoryKey] == Log([])
    ensures r.state.gameHistory == g.state.gameHistory
    ensures r.state.previousTile == g.state.previousTile && r.state.currentTile == g.state.currentTile
    ensures r.state.sharedPosition == g.state.sharedPosition
    ensures forall k | k != CorrectKey && k != WrongKey && k != HistoryKey ::
              (k in r.store <==> k in g.store) && (k in g.store ==> r.store[k] == g.store[k])
  {
    var store := ResetStore(g.store);
    ZeroText();
    Game(g.state.(scoreCorrect := 0, scoreWrong := 0), store)
  }

  /** The three `localStorage.setItem` calls of `resetScore`. */
  function ResetStore(store: Store): (r: Store)
    ensures CorrectKey in r && r[CorrectKey] == Text("0")
    ensures WrongKey in r && r[WrongKey] == Text("0")
    ensures HistoryKey in r && r[HistoryKey] == Log([])
    ensures forall k | k != CorrectKey && k != WrongKey && k != HistoryKey ::
              (k in r <==> k in store) && (k in store ==> r[k] == store[k])
  {
    KeysDistinct();
    store[CorrectKey := Text("0")][WrongKey := Text("0")][HistoryKey := Log([])]
  }

  /** The mark a guess is logged with. */
  function Mark(isCorrect: bool): (m: string)
    ensures m == Tick <==> isCorrect
  {
    if isCorrect then Tick else Cross
  }

  /** `logGuess(isCorrect)` at time `time`: appends one entry and stores the whole history. */
  function LogGuess(g: Game, isCorrect: bool, time: string): (r: Game)
    ensures r.state.gameHistory == g.state.gameHistory + [Entry(time, Mark(isCorrect))]
    ensures HistoryKey in r.store && r.store[HistoryKey] == Log(r.state.gameHistory)
    ensures r.state == g.state.(gameHistory := r.state.gameHistory)
    ensures forall k | k != HistoryKey ::
              (k in r.store <==> k in g.store) && (k in g.store ==> r.store[k] == g.store[k])
  {
    var history := g.state.gameHistory + [Entry(time, Mark(isCorrect))];
    Game(g.state.(gameHistory := history), g.store[HistoryKey := Log(history)])
  }

  /** `updateScore(isCorrect)`: one more correct or one more wrong guess, stored as the
      counter's decimal text, then the guess is logged. */
  function UpdateScore(g: Game, isCorrect: bool, time: string): (r: Game)
    ensures isCorrect ==> r.state.scoreCorrect == g.state.scoreCorrect + 1 && r.state.scoreWrong == g.state.scoreWrong
    ensures !isCorrect ==> r.state.scoreWrong == g.state.scoreWrong + 1 && r.state.scoreCorrect == g.state.scoreCorrect
    ensures isCorrect ==> StoredCounter(r.store, CorrectKey) == r.state.scoreCorrect
    ensures !isCorrect ==> StoredCounter(r.store, WrongKey) == r.state.scoreWrong
    ensures r.state.gameHistory == g.state.gameHistory + [Entry(time, Mark(isCorrect))]
    ensures HistoryKey in r.store && r.store[HistoryKey] == Log(r.state.gameHistory)
    ensures r.state.previousTile == g.state.previousTile && r.state.currentTile == g.state.currentTile
    ensures r.state.sharedPosition == g.state.sharedPosition
  {
    LogGuess(Count(g, isCorrect), isCorrect, time)
  }

  /** The counting half of `updateScore`: the incremented counter, in memory and stored. */
  function Count(g: Game, isCorrect: bool): (r: Game)
    ensures isCorrect ==> StoredCounter(r.store, CorrectKey) == r.state.scoreCorrect == g.state.scoreCorrect + 1
    ensures !isCorrect ==> StoredCounter(r.store, WrongKey) == r.state.scoreWrong == g.state.scoreWrong + 1
    ensures isCorrect ==> r.state == g.state.(scoreCorrect := r.state.scoreCorrect)
                          && CorrectKey in r.store && r.store == g.store[CorrectKey := r.store[CorrectKey]]
    ensures !isCorrect ==> r.state == g.state.(scoreWrong := r.state.scoreWrong)
                           && WrongKey in r.store && r.store == g.store[WrongKey := r.store[WrongKey]]
  {
    var s := g.state;
    if isCorrect then
      var n := s.scoreCorrect + 1;
      StoredNumber(g.store[CorrectKey := Text(IntToText(n))], CorrectKey, n);
      Game(s.(scoreCorrect := n), g.store[CorrectKey := Text(IntToText(n))])
    else
      var n := s.scoreWrong + 1;
      StoredNumber(g.store[WrongKey := Text(IntToText(n))], WrongKey, n);
      Game(s.(scoreWrong := n), g.store[WrongKey := Text(IntToText(n))])
  }

  /** Why `loadScore` can fail: the stored history is text this model does not parse. */
  datatype LoadError = UnparsedHistory

  /** `loadScore()`: the counters read back with `StoredCounter`, and the history from its
      key, an empty list when the key is missing. */
  function LoadScore(g: Game): (r: Result<Game, LoadError>)
    ensures r.Success? <==> HistoryKey !in g.store || g.store[HistoryKey].Log?
    ensures r.Success? ==> CountersSynced(r.value)
    ensures r.Success? ==> r.value.store == g.store
    ensures r.Success? && HistoryKey !in g.store ==> r.value.state.gameHistory == []
    ensures r.Success? && HistoryKey in g.store ==> r.value.state.gameHistory == g.store[HistoryKey].entries
    ensures r.Success? ==> r.value.state.previousTile == g.state.previousTile
                           && r.value.state.currentTile == g.state.currentTile
                           && r.value.state.sharedPosition == g.state.sharedPosition
  {
    var history :=
      if HistoryKey !in g.store then Success([])
      else match g.store[HistoryKey]
        case Log(entries) => Success(entries)
        case Text(_) => Failure(UnparsedHistory);
    if history.Failure? then Failure(UnparsedHistory)
    else
      var s := g.state.(
        scoreCorrect := StoredCounter(g.store, CorrectKey),
        scoreWrong := StoredCounter(g.store, WrongKey),
        gameHistory := history.value);
      Success(Game(s, g.store))
  }

  /** `restart()`: a score reset. */
  function Restart(g: Game): (r: Game)
    ensures r.state.scoreCorrect == 0 && r.state.scoreWrong == 0 && CountersSynced(r)
    ensures r.state.gameHistory == g.state.gameHistory
  {
    ResetScore(g)
  }

  /** `startGame()`: a score reset followed by a load, which then always succeeds and
      leaves both counters at 0 and the history empty, in memory and in storage. */
  function StartGame(g: Game): (r: Game)
    ensures r.state.scoreCorrect == 0 && r.state.scoreWrong == 0 && CountersSynced(r)
    ensures r.state.gameHistory == [] && HistoryKey in r.store && r.store[HistoryKey] == Log([])
    ensures r.state.previousTile == g.state.previousTile && r.state.currentTile == g.state.currentTile
  {
    var reset := ResetScore(g);
    LoadScore(reset).value
  }

  /** A guess keeps storage and memory in step: the counter it does not touch is still
      stored as it was. */
  lemma UpdateScoreKeepsSync(g: Game, isCorrect: bool, time: string)
    ensures CountersSynced(g) ==> CountersSynced(UpdateScore(g, isCorrect, time))
  {
    var c := Count(g, isCorrect);
    var r := LogGuess(c, isCorrect, time);
    KeysDistinct();
    SameCounter(c.store, r.store, CorrectKey);
    SameCounter(c.store, r.store, WrongKey);
    if isCorrect {
      SameCounter(g.store, c.store, WrongKey);
    } else {
      SameCounter(g.store, c.store, CorrectKey);
    }
  }

  /** The text "0" reads back as 0. */
  lemma ZeroText()
    ensures ReadCounter("0") == 0
  {
    assert IntToText(0) == "0";
    ParseIntRoundTrip(0);
  }

  lemma KeysDistinct()
    ensures CorrectKey != WrongKey && CorrectKey != HistoryKey && WrongKey != HistoryKey
  {
    assert CorrectKey[0] != WrongKey[0] && CorrectKey[0] != HistoryKey[0] && WrongKey[0] != HistoryKey[0];
  }

  /** A counter reads the same from two stores that agree on its key. */
  lemma SameCounter(a: Store, b: Store, key: string)
    requires key in a <==> key in b
    requires key in a ==> a[key] == b[key]
    ensures StoredCounter(a, key) == StoredCounter(b, key)
  {
  }

  /** Counters only grow: a guess never lowers either of them. */
  lemma CountersNeverDecrease(g: Game, isCorrect: bool, time: string)
    ensures UpdateScore(g, isCorrect, time).state.scoreCorrect >= g.state.scoreCorrect
    ensures UpdateScore(g, isCorrect, time).state.scoreWrong >= g.state.scoreWrong
    ensures UpdateScore(g, isCorrect, time).state.scoreCorrect + UpdateScore(g, isCorrect, time).state.scoreWrong
            == g.state.scoreCorrect + g.state.scoreWrong + 1
  {
  }

  /** `resetScore` empties the stored history but not the in-memory one, so the next logged
      guess stores the old entries again, followed by the new one. */
  lemma ResetThenLogRestoresHistory(g: Game, isCorrect: bool, time: string)
    ensures LogGuess(ResetScore(g), isCorrect, time).store[HistoryKey]
            == Log(g.state.gameHistory + [Entry(time, Mark(isCorrect))])
  {
  }

  /** After a start, storage and memory agree, so a load changes nothing. */
  lemma LoadAfterStartIsIdle(g: Game)
    ensures LoadScore(StartGame(g)) == Success(StartGame(g))
  {
  }
}
