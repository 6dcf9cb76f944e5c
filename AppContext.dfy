/**
 * The application's global state and its reducer (src/context/AppContext.jsx).
 * `Reduce` is `appReducer`: every case builds a new state record from the
 * old one, changing only the fields that case names.
 */
module AppContext {
  import opened Wrappers
  import Slides
  import TicTacToe
  import JsBuiltins

  /** The two values the `direction` field takes: forward and backward. */
  const Forward: int := 1
  const Backward: int := -1

  /** The reducer's tic-tac-toe slice (the slide itself keeps its own state). */
  datatype GameState = GameState(
    board: seq<TicTacToe.Cell>,
    isPlayerTurn: bool,
    winner: Option<TicTacToe.Mark>,
    winningLine: Option<TicTacToe.Line>)

  /** The payload of UPDATE_GAME_STATE: a key that is present overrides that field. */
  datatype GamePatch = GamePatch(
    board: Option<seq<TicTacToe.Cell>>,
    isPlayerTurn: Option<bool>,
    winner: Option<Option<TicTacToe.Mark>>,
    winningLine: Option<Option<TicTacToe.Line>>)

  /** The reducer's gift slice: the gift indices revealed so far and the last one. */
  datatype GiftsState = GiftsState(revealed: seq<int>, currentGift: int)

  datatype State = State(
    currentSlide: int,
    totalSlides: int,
    direction: int,
    isAudioPlaying: bool,
    audioEnabled: bool,
    showControls: bool,
    isLoading: bool,
    error: Option<string>,
    gameState: GameState,
    gifts: GiftsState,
    isModalOpen: bool)

  /** The thirteen action types, and any other type the reducer does not know. */
  datatype Action =
    | NextSlide
    | PrevSlide
    | GoToSlide(index: int)
    | ToggleAudio
    | SetAudioPlaying(playing: bool)
    | ToggleControls
    | SetLoading(loading: bool)
    | SetError(error: Option<string>)
    | UpdateGameState(patch: GamePatch)
    | ResetGameState
    | RevealGift(gift: int)
    | ResetGifts
    | ToggleModal
    | UnknownAction(name: string)

  /** The top-level fields of the state, for saying which ones an action may change. */
  datatype Field =
    | CurrentSlide | TotalSlides | Direction | IsAudioPlaying | AudioEnabled
    | ShowControls | IsLoading | Error | Game | Gifts | IsModalOpen

  /** The game slice that RESET_GAME_STATE installs: nine empty cells, the player to move. */
  const EmptyGameState: GameState := GameState([None, None, None, None, None, None, None, None, None], true, None, None)

  /** `initialState`: the first slide, every slide of the table, moving forward. */
  const InitialState: State := State(
    0, |Slides.SlidesData|, Forward,
    false, true,
    true, false, None,
    EmptyGameState,
    GiftsState([], 0),
    false)

  /** `t` agrees with `s` on every field outside `changed`. */
  predicate AgreeOutside(s: State, t: State, changed: set<Field>) {
    && (CurrentSlide !in changed ==> t.currentSlide == s.currentSlide)
    && (TotalSlides !in changed ==> t.totalSlides == s.totalSlides)
    && (Direction !in changed ==> t.direction == s.direction)
    && (IsAudioPlaying !in changed ==> t.isAudioPlaying == s.isAudioPlaying)
    && (AudioEnabled !in changed ==> t.audioEnabled == s.audioEnabled)
    && (ShowControls !in changed ==> t.showControls == s.showControls)
    && (IsLoading !in changed ==> t.isLoading == s.isLoading)
    && (Error !in changed ==> t.error == s.error)
    && (Game !in changed ==> t.gameState == s.gameState)
    && (Gifts !in changed ==> t.gifts == s.gifts)
    && (IsModalOpen !in changed ==> t.isModalOpen == s.isModalOpen)
  }

  /** The fields each action names. */
  function Touches(a: Action): set<Field> {
    match a
    case NextSlide => {CurrentSlide, Direction}
    case PrevSlide => {CurrentSlide, Direction}
    case GoToSlide(_) => {CurrentSlide, Direction}
    case ToggleAudio => {IsAudioPlaying}
    case SetAudioPlaying(_) => {IsAudioPlaying}
    case ToggleControls => {ShowControls}
    case SetLoading(_) => {IsLoading}
    case SetError(_) => {Error}
    case UpdateGameState(_) => {Game}
    case ResetGameState => {Game}
    case RevealGift(_) => {Gifts}
    case ResetGifts => {Gifts}
    case ToggleModal => {IsModalOpen}
    case UnknownAction(_) => {}
  }

  /** The current slide is an index of the slide list (which is then non-empty). */
  predicate InRange(s: State) {
    0 <= s.currentSlide < s.totalSlides
  }

  predicate NoDuplicates(xs: seq<int>) {
    forall i, j :: 0 <= i < j < |xs| ==> xs[i] != xs[j]
  }

  /** What holds of every state the reducer can reach from `initialState`. */
  predicate Valid(s: State) {
    InRange(s) && (s.direction == Forward || s.direction == Backward) && NoDuplicates(s.gifts.revealed)
  }

  /** A payload that names no field. */
  const EmptyPatch: GamePatch := GamePatch(None, None, None, None)

  /**
   * `{...state.gameState, ...payload}`: the payload's fields win, the others
   * are kept, so an empty payload changes nothing.
   */
  function MergeGameState(g: GameState, p: GamePatch): (r: GameState)
    ensures p == EmptyPatch ==> r == g
    ensures p.board.Some? ==> r.board == p.board.value
    ensures p.isPlayerTurn.Some? ==> r.isPlayerTurn == p.isPlayerTurn.value
    ensures p.winner.Some? ==> r.winner == p.winner.value
    ensures p.winningLine.Some? ==> r.winningLine == p.winningLine.value
  {
    GameState(
      if p.board.Some? then p.board.value else g.board,
      if p.isPlayerTurn.Some? then p.isPlayerTurn.value else g.isPlayerTurn,
      if p.winner.Some? then p.winner.value else g.winner,
      if p.winningLine.Some? then p.winningLine.value else g.winningLine)
  }

  /** `appReducer(state, action)`. */
  function Reduce(s: State, a: Action): (r: State)
    ensures AgreeOutside(s, r, Touches(a))
    ensures InRange(s) ==> InRange(r)
    ensures Valid(s) ==> Valid(r)
  {
    match a
    case NextSlide =>
      if s.currentSlide < s.totalSlides - 1 then
        s.(currentSlide := s.currentSlide + 1, direction := Forward)
      else s
    case PrevSlide =>
      if s.currentSlide > 0 then
        s.(currentSlide := s.currentSlide - 1, direction := Backward)
      else s
    case GoToSlide(p) =>
      if p >= 0 && p < s.totalSlides then
        s.(currentSlide := p, direction := if p > s.currentSlide then Forward else Backward)
      else s
    case ToggleAudio => s.(isAudioPlaying := !s.isAudioPlaying)
    case SetAudioPlaying(v) => s.(isAudioPlaying := v)
    case ToggleControls => s.(showControls := !s.showControls)
    case SetLoading(v) => s.(isLoading := v)
    case SetError(e) => s.(error := e)
    case UpdateGameState(p) => s.(gameState := MergeGameState(s.gameState, p))
    case ResetGameState => s.(gameState := EmptyGameState)
    case RevealGift(g) =>
      if g !in s.gifts.revealed then
        s.(gifts := s.gifts.(revealed := s.gifts.revealed + [g], currentGift := g))
      else s
    case ResetGifts => s.(gifts := GiftsState([], 0))
    case ToggleModal => s.(isModalOpen := !s.isModalOpen)
    case UnknownAction(_) => s
  }

  /** The state after dispatching `actions` one after another. */
  function ReduceAll(s: State, actions: seq<Action>): State
    decreases |actions|
  {
    if actions == [] then s else ReduceAll(Reduce(s, actions[0]), actions[1..])
  }

  lemma InitialStateValid()
    ensures Valid(InitialState) && InitialState.totalSlides == 6
  {
  }

  /** Every sequence of actions keeps a valid state valid, in particular the slide index in range. */
  lemma {:induction false} ReduceAllKeepsValid(s: State, actions: seq<Action>)
    requires Valid(s)
    ensures Valid(ReduceAll(s, actions))
    ensures ReduceAll(s, actions).totalSlides == s.totalSlides
    decreases |actions|
  {
    if actions != [] {
      var t := Reduce(s, actions[0]);
      assert TotalSlides !in Touches(actions[0]);
      ReduceAllKeepsValid(t, actions[1..]);
    }
  }

  /** NEXT_SLIDE moves one slide forward, unless already on the last slide. */
  lemma NextSlideMoves(s: State)
    ensures s.currentSlide < s.totalSlides - 1 ==>
              Reduce(s, NextSlide).currentSlide == s.currentSlide + 1
              && Reduce(s, NextSlide).direction == Forward
    ensures s.currentSlide >= s.totalSlides - 1 ==> Reduce(s, NextSlide) == s
  {
  }

  /** PREV_SLIDE moves one slide back, unless already on the first slide. */
  lemma PrevSlideMoves(s: State)
    ensures s.currentSlide > 0 ==>
              Reduce(s, PrevSlide).currentSlide == s.currentSlide - 1
              && Reduce(s, PrevSlide).direction == Backward
    ensures s.currentSlide <= 0 ==> Reduce(s, PrevSlide) == s
  {
  }

  /**
   * GO_TO_SLIDE jumps to any index of the list, forward when the target is
   * ahead and backward otherwise (also when it is the current slide); an
   * index outside the list is ignored.
   */
  lemma GoToSlideJumps(s: State, p: int)
    ensures 0 <= p < s.totalSlides ==>
              Reduce(s, GoToSlide(p)).currentSlide == p
              && (Reduce(s, GoToSlide(p)).direction == Forward <==> p > s.currentSlide)
              && (Reduce(s, GoToSlide(p)).direction == Backward <==> p <= s.currentSlide)
    ensures !(0 <= p < s.totalSlides) ==> Reduce(s, GoToSlide(p)) == s
    ensures 0 <= s.currentSlide < s.totalSlides ==>
              Reduce(s, GoToSlide(s.currentSlide)) == s.(direction := Backward)
  {
  }

  /** The three toggles are involutions: applying one twice gives back the state. */
  lemma TogglesAreInvolutions(s: State)
    ensures Reduce(Reduce(s, ToggleAudio), ToggleAudio) == s
    ensures Reduce(Reduce(s, ToggleControls), ToggleControls) == s
    ensures Reduce(Reduce(s, ToggleModal), ToggleModal) == s
    ensures Reduce(s, ToggleAudio).isAudioPlaying != s.isAudioPlaying
    ensures Reduce(s, ToggleControls).showControls != s.showControls
    ensures Reduce(s, ToggleModal).isModalOpen != s.isModalOpen
  {
  }

  /**
   * REVEAL_GIFT appends a gift not yet revealed and makes it the current one;
   * a gift already revealed leaves the state as it is, so revealing twice is
   * the same as revealing once, and the list never holds a gift twice.
   */
  lemma RevealGiftAppendsOnce(s: State, g: int)
    ensures g !in s.gifts.revealed ==>
              Reduce(s, RevealGift(g)).gifts == GiftsState(s.gifts.revealed + [g], g)
    ensures g in s.gifts.revealed ==> Reduce(s, RevealGift(g)) == s
    ensures g in Reduce(s, RevealGift(g)).gifts.revealed
    ensures Reduce(Reduce(s, RevealGift(g)), RevealGift(g)) == Reduce(s, RevealGift(g))
    ensures NoDuplicates(s.gifts.revealed) ==> NoDuplicates(Reduce(s, RevealGift(g)).gifts.revealed)
  {
  }

  /** The two reset actions install their fixed slices whatever the state was. */
  lemma ResetsInstallFixedSlices(s: State)
    ensures var g := Reduce(s, ResetGameState).gameState;
            |g.board| == 9 && (forall i :: 0 <= i < 9 ==> g.board[i] == None)
            && g.isPlayerTurn && g.winner == None && g.winningLine == None
    ensures Reduce(s, ResetGifts).gifts.revealed == [] && Reduce(s, ResetGifts).gifts.currentGift == 0
  {
  }

  /** UPDATE_GAME_STATE overrides exactly the keys present in its payload. */
  lemma UpdateGameStateMerges(s: State, p: GamePatch)
    ensures var g := Reduce(s, UpdateGameState(p)).gameState;
            && (p.board.Some? ==> g.board == p.board.value)
            && (p.board.None? ==> g.board == s.gameState.board)
            && (p.isPlayerTurn.Some? ==> g.isPlayerTurn == p.isPlayerTurn.value)
            && (p.isPlayerTurn.None? ==> g.isPlayerTurn == s.gameState.isPlayerTurn)
            && (p.winner.Some? ==> g.winner == p.winner.value)
            && (p.winner.None? ==> g.winner == s.gameState.winner)
            && (p.winningLine.Some? ==> g.winningLine == p.winningLine.value)
            && (p.winningLine.None? ==> g.winningLine == s.gameState.winningLine)
  {
  }

  /** SET_AUDIO_PLAYING, SET_LOADING and SET_ERROR store their payload. */
  lemma SettersStorePayload(s: State, playing: bool, loading: bool, error: Option<string>)
    ensures Reduce(s, SetAudioPlaying(playing)).isAudioPlaying == playing
    ensures Reduce(s, SetLoading(loading)).isLoading == loading
    ensures Reduce(s, SetError(error)).error == error
  {
  }

  /** An action type the reducer does not know returns the state itself. */
  lemma UnknownActionIsIgnored(s: State, name: string)
    ensures Reduce(s, UnknownAction(name)) == s
  {
  }

  /** The `isFirstSlide` getter: on a valid state, exactly where PREV_SLIDE does nothing. */
  predicate IsFirstSlide(s: State)
    ensures Valid(s) ==> (IsFirstSlide(s) <==> Reduce(s, PrevSlide) == s)
  {
    assert Valid(s) && s.currentSlide != 0 ==> Reduce(s, PrevSlide).currentSlide != s.currentSlide;
    s.currentSlide == 0
  }

  /** The `isLastSlide` getter: on a valid state, exactly where NEXT_SLIDE does nothing. */
  predicate IsLastSlide(s: State)
    ensures Valid(s) ==> (IsLastSlide(s) <==> Reduce(s, NextSlide) == s)
  {
    assert Valid(s) && s.currentSlide != s.totalSlides - 1 ==> Reduce(s, NextSlide).currentSlide != s.currentSlide;
    s.currentSlide == s.totalSlides - 1
  }

  /** The `currentSlide` getter: `slidesData[state.currentSlide]`, undefined outside the table. */
  function CurrentSlideData(s: State): (r: Option<Slides.Slide>)
    ensures r.Some? <==> 0 <= s.currentSlide < |Slides.SlidesData|
    ensures InRange(s) && s.totalSlides == |Slides.SlidesData| ==> r.Some?
    ensures r.Some? ==> r.value in Slides.SlidesData && r.value.order == s.currentSlide + 1
  {
    Slides.SlidesDataWellFormed();
    if 0 <= s.currentSlide < |Slides.SlidesData| then Some(Slides.SlidesData[s.currentSlide]) else None
  }

  /** Every state reached from `initialState` has a slide to show. */
  lemma {:induction false} ReachableStateHasSlide(actions: seq<Action>)
    ensures CurrentSlideData(ReduceAll(InitialState, actions)).Some?
  {
    ReduceAllKeepsValid(InitialState, actions);
  }

  /**
   * The load effect: the parsed stored index (None when nothing is stored or
   * it does not parse) is dispatched as GO_TO_SLIDE only when it is an index
   * of the list. On mount the save effect has already overwritten the store
   * with the current index, so this sees only that index (`MountEffects`).
   */
  function RestoreSavedSlide(s: State, saved: Option<int>): (r: State)
    ensures saved.Some? && 0 <= saved.value < s.totalSlides ==> r.currentSlide == saved.value
    ensures !(saved.Some? && 0 <= saved.value < s.totalSlides) ==> r == s
    ensures AgreeOutside(s, r, {CurrentSlide, Direction})
    ensures Valid(s) ==> Valid(r)
  {
    if saved.Some? && saved.value >= 0 && saved.value < s.totalSlides then
      Reduce(s, GoToSlide(saved.value))
    else s
  }

  /**
   * The provider's two mount effects in the order they are declared: the save
   * effect writes `state.currentSlide.toString()` to the store, then the load
   * effect reads the store back and passes `parseInt` of it to
   * `RestoreSavedSlide`. `previous` is what the store held before the mount;
   * the save effect has overwritten it by the time the load effect reads, so
   * the slide never moves and only the direction can change.
   */
  function MountEffects(s: State, previous: Option<string>): (r: State)
    ensures r.currentSlide == s.currentSlide
    ensures InRange(s) ==> r == s.(direction := Backward)
  {
    var stored := JsBuiltins.IntToString(s.currentSlide);
    JsBuiltins.IntToStringRoundTrip(s.currentSlide);
    RestoreSavedSlide(s, JsBuiltins.ParseInt(stored))
  }

  /** A reload starts from `initialState` on the first slide, whatever index was stored before. */
  lemma ReloadNeverResumes(previous: Option<string>)
    ensures MountEffects(InitialState, previous) == InitialState.(direction := Backward)
    ensures MountEffects(InitialState, previous).currentSlide == 0
  {
    InitialStateValid();
  }
}
