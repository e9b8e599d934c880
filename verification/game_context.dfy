/** The app-state reducer: a pure function from a state and an action to the next state.
    Games and saved-state values are opaque to it, so both are type parameters. */
module GameContext {
  import opened Wrappers

  datatype AppState<G, V> = AppState(
    library: seq<G>,
    currentGame: Option<G>,
    gameState: map<string, V>,
    loading: bool,
    error: Option<string>)

  /** Each action type with its payload; `Unknown` is any other type. */
  datatype Action<G, V> =
    | SetLoading(loading: bool)
    | SetError(error: Option<string>)
    | SetLibrary(library: seq<G>)
    | AddToLibrary(game: G)
    | LoadGame(selected: Option<G>)
    | UpdateGameState(changes: map<string, V>)
    | SaveGameProgress
    | Unknown(kind: string)

  /** `initialState`: an empty library, no game, empty game state, not loading, no error. */
  function InitialState<G, V>(): (s: AppState<G, V>)
    ensures |s.library| == 0 && s.currentGame.None? && |s.gameState| == 0
    ensures !s.loading && s.error.None?
  {
    AppState([], None, map[], false, None)
  }

  /** `gameReducer`. */
  function Reduce<G, V>(s: AppState<G, V>, a: Action<G, V>): (r: AppState<G, V>)
    ensures a.SetLoading? ==> r == s.(loading := a.loading)
    ensures a.SetError? ==> r.error == a.error && !r.loading
    ensures a.SetError? ==> r.library == s.library && r.currentGame == s.currentGame && r.gameState == s.gameState
    ensures a.SetLibrary? ==> r == s.(library := a.library)
    ensures a.AddToLibrary? ==>
              |r.library| == |s.library| + 1 && r.library[..|s.library|] == s.library && r.library[|s.library|] == a.game
    ensures a.AddToLibrary? ==>
              r.currentGame == s.currentGame && r.gameState == s.gameState && r.loading == s.loading && r.error == s.error
    ensures a.LoadGame? ==> r.currentGame == a.selected && |r.gameState| == 0
    ensures a.LoadGame? ==> r.library == s.library && r.loading == s.loading && r.error == s.error
    ensures a.UpdateGameState? ==> r.gameState.Keys == s.gameState.Keys + a.changes.Keys
    ensures a.UpdateGameState? ==> forall k :: k in a.changes ==> r.gameState[k] == a.changes[k]
    ensures a.UpdateGameState? ==> forall k :: k in s.gameState && k !in a.changes ==> r.gameState[k] == s.gameState[k]
    ensures a.UpdateGameState? ==>
              r.library == s.library && r.currentGame == s.currentGame && r.loading == s.loading && r.error == s.error
    ensures a.SaveGameProgress? || a.Unknown? ==> r == s
  {
    match a
    case SetLoading(loading) => s.(loading := loading)
    case SetError(error) => s.(error := error, loading := false)
    case SetLibrary(library) => s.(library := library)
    case AddToLibrary(game) => s.(library := s.library + [game])
    case LoadGame(selected) => s.(currentGame := selected, gameState := map[])
    case UpdateGameState(changes) => s.(gameState := s.gameState + changes)
    case SaveGameProgress => s
    case Unknown(_) => s
  }

  /** Dispatching a list of actions in order. */
  function ReduceAll<G, V>(s: AppState<G, V>, actions: seq<Action<G, V>>): AppState<G, V>
    decreases |actions|
  {
    if actions == [] then s else ReduceAll(Reduce(s, actions[0]), actions[1..])
  }

  function AddAll<G, V>(games: seq<G>): (actions: seq<Action<G, V>>)
    ensures |actions| == |games|
    ensures forall i :: 0 <= i < |games| ==> actions[i] == AddToLibrary(games[i])
  {
    if games == [] then [] else [AddToLibrary(games[0])] + AddAll(games[1..])
  }

  /** Dispatching a list of actions in order: the first, then the rest. */
  lemma ReduceAllStep<G, V>(s: AppState<G, V>, first: Action<G, V>, rest: seq<Action<G, V>>)
    ensures ReduceAll(s, [first] + rest) == ReduceAll(Reduce(s, first), rest)
  {
    assert ([first] + rest)[1..] == rest;
  }

  /** Adding games one by one appends them to the library in order and changes nothing else. */
  lemma {:induction false} AddAllAppends<G, V>(s: AppState<G, V>, games: seq<G>)
    ensures ReduceAll(s, AddAll(games)) == s.(library := s.library + games)
    decreases |games|
  {
    if games != [] {
      var next := s.(library := s.library + [games[0]]);
      ReduceAllStep(s, AddToLibrary(games[0]), AddAll(games[1..]));
      AddAllAppends(next, games[1..]);
      assert next.library + games[1..] == s.library + games;
    }
  }

  /** Two updates in a row act as one update with the second merged over the first. */
  lemma UpdatesCompose<G, V>(s: AppState<G, V>, first: map<string, V>, second: map<string, V>)
    ensures Reduce(Reduce(s, UpdateGameState(first)), UpdateGameState(second)) ==
            Reduce(s, UpdateGameState(first + second))
  {
    assert (s.gameState + first) + second == s.gameState + (first + second);
  }

  /** Repeating an update changes nothing more. */
  lemma UpdateIdempotent<G, V>(s: AppState<G, V>, changes: map<string, V>)
    ensures Reduce(Reduce(s, UpdateGameState(changes)), UpdateGameState(changes)) == Reduce(s, UpdateGameState(changes))
  {
    UpdatesCompose(s, changes, changes);
    assert changes + changes == changes;
  }

  /** Loading a game and then its saved state leaves exactly that saved state. */
  lemma LoadThenRestore<G, V>(s: AppState<G, V>, game: G, saved: map<string, V>)
    ensures var r := ReduceAll(s, [LoadGame(Some(game)), UpdateGameState(saved)]);
            r.currentGame == Some(game) && r.gameState == saved
  {
    var loaded := Reduce(s, LoadGame(Some(game)));
    ReduceAllStep(s, LoadGame(Some(game)), [UpdateGameState(saved)]);
    ReduceAllStep(loaded, UpdateGameState(saved), []);
    assert map[] + saved == saved;
  }

  /** Reading the library successfully (loading on, library set, loading off) leaves the
      stored library in place, loading off, and every other field unchanged. */
  lemma LoadLibrarySucceeds<G, V>(s: AppState<G, V>, stored: seq<G>)
    ensures ReduceAll(s, [SetLoading(true), SetLibrary(stored), SetLoading(false)]) ==
            s.(library := stored, loading := false)
  {
    var s1 := Reduce(s, SetLoading(true));
    var s2 := Reduce(s1, SetLibrary(stored));
    ReduceAllStep(s, SetLoading(true), [SetLibrary(stored), SetLoading(false)]);
    ReduceAllStep(s1, SetLibrary(stored), [SetLoading(false)]);
    ReduceAllStep(s2, SetLoading(false), []);
  }

  /** A failed read (loading on, error set, loading off) keeps the library and records the error. */
  lemma LoadLibraryFails<G, V>(s: AppState<G, V>, message: string)
    ensures ReduceAll(s, [SetLoading(true), SetError(Some(message)), SetLoading(false)]) ==
            s.(error := Some(message), loading := false)
  {
    var s1 := Reduce(s, SetLoading(true));
    var s2 := Reduce(s1, SetError(Some(message)));
    ReduceAllStep(s, SetLoading(true), [SetError(Some(message)), SetLoading(false)]);
    ReduceAllStep(s1, SetError(Some(message)), [SetLoading(false)]);
    ReduceAllStep(s2, SetLoading(false), []);
  }
}
