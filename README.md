# Greeting-card slideshow: a verified model of its logic

The application is a single-recipient greeting card presented as six
animated slides: a welcome screen, a rigged tic-tac-toe game, a message, a
gift carousel, a music player and a thank-you card. Almost all of it is
rendering. This project models the parts that decide something:

- **The global reducer** (`AppContext`): the state record (current slide, slide
  count, direction, audio and UI flags, a game slice, a gift slice, the modal
  flag), all thirteen action types plus the default case, the initial state,
  the `isFirstSlide` / `isLastSlide` / `currentSlide` getters, the range
  check the load effect applies to the stored slide index, and the order in
  which the save and load effects run on mount.
- **The navigation hook** (`SlideNavigation`): the guarded next/previous
  dispatches and the unchecked go-to, composed with the reducer.
- **The tic-tac-toe slide** (`TicTacToe`): the eight win lines, the seeded
  board, the first-match win check (a loop, proved against a specification
  function), and the slide's state as a class holding the nine-cell array
  with its click, game-end and reset handlers.
- **The gift carousel** (`GiftSequence`): the open / close-and-advance tap
  as a class over the two state variables and a specification function, the
  stack offsets and z-indices of the boxes drawn behind the current one, and
  the active progress dot.
- **The slide table** (`Slides`): the six slides, `getTotalSlides`,
  `getSlideById`.
- **The music player's arithmetic** (`MusicPlayer`): `formatTime` and the
  progress percentage.
- `JsBuiltins` gives the JavaScript semantics these rely on: the `%`
  operator (truncating, sign of the dividend), `toString` on integers,
  `parseInt` on the text `toString` writes, and `padStart`. `Wrappers` holds the `Option` type used for `null` and
  `undefined`.

In the seed board (src/components/slides/TicTacToeSlide.jsx:22) cell 1 is a
cross, so a heart in the centre completes only the diagonal 0-4-8
(`TicTacToe.SeedCentreWinsOnDiagonal`).

Three quirks of the code are kept as they are:

- GO_TO_SLIDE to the current index sets the direction to backward.
- RESET_GAME_STATE installs nine empty cells, not the seed. The slides never
  read the reducer's game and gift slices; they keep their own state, as
  the `TicTacToe.Game` and `GiftSequence.GiftCarousel` classes do here.
- The effect that saves the slide index is declared before the effect that
  loads it, so on mount the stored index is overwritten with the current one
  (0) before it is read, and a reload never resumes where the last visit
  stopped (`AppContext.MountEffects`, `AppContext.ReloadNeverResumes`).

## Model

| member | source | states |
|---|---|---|
| `AppContext.Reduce` | src/context/AppContext.jsx:70-183 | every action changes only the fields it names (an unknown action changes none); the current slide stays an index of the list; the reachable-state invariant (index in range, direction 1 or -1, no gift revealed twice) is preserved |
| `AppContext.InitialStateValid` | src/context/AppContext.jsx:36-67 | the initial state satisfies the invariant and counts six slides |
| `AppContext.ReduceAllKeepsValid` | src/context/AppContext.jsx:70-183 | any sequence of dispatched actions keeps the invariant and the slide count |
| `AppContext.NextSlideMoves` | src/context/AppContext.jsx:72-80 | NEXT_SLIDE advances by one and sets direction forward below the last slide, and otherwise returns the state unchanged |
| `AppContext.PrevSlideMoves` | src/context/AppContext.jsx:82-90 | PREV_SLIDE goes back by one and sets direction backward above the first slide, and otherwise returns the state unchanged |
| `AppContext.GoToSlideJumps` | src/context/AppContext.jsx:92-100 | GO_TO_SLIDE sets an in-range target, forward exactly when it lies ahead, backward otherwise; going to the current slide only flips direction to backward; an out-of-range target is ignored |
| `AppContext.TogglesAreInvolutions` | src/context/AppContext.jsx:102-178 | TOGGLE_AUDIO, TOGGLE_CONTROLS and TOGGLE_MODAL each flip their flag, and applying one twice gives back the state |
| `AppContext.RevealGiftAppendsOnce` | src/context/AppContext.jsx:152-163 | REVEAL_GIFT appends an unrevealed gift and makes it current; a revealed one leaves the state unchanged; revealing is idempotent and keeps the list free of duplicates |
| `AppContext.ResetsInstallFixedSlices` | src/context/AppContext.jsx:141-172 | RESET_GAME_STATE yields nine empty cells, player to move, no winner or line; RESET_GIFTS yields an empty list and gift 0 |
| `AppContext.MergeGameState` | src/context/AppContext.jsx:132-139 | each field present in the payload replaces the game field; an empty payload leaves the game state unchanged |
| `AppContext.UpdateGameStateMerges` | src/context/AppContext.jsx:132-139 | UPDATE_GAME_STATE overrides exactly the game fields present in the payload |
| `AppContext.SettersStorePayload` | src/context/AppContext.jsx:108-130 | SET_AUDIO_PLAYING, SET_LOADING and SET_ERROR store their payload in their field |
| `AppContext.UnknownActionIsIgnored` | src/context/AppContext.jsx:180-181 | an unknown action type returns the state itself |
| `AppContext.IsFirstSlide` | src/context/AppContext.jsx:212 | on a valid state, `isFirstSlide` holds exactly where PREV_SLIDE would change nothing |
| `AppContext.IsLastSlide` | src/context/AppContext.jsx:213 | on a valid state, `isLastSlide` holds exactly where NEXT_SLIDE would change nothing |
| `AppContext.CurrentSlideData` | src/context/AppContext.jsx:210 | the `currentSlide` getter is defined exactly for indices of the table, always on an in-range state over the six-slide table, and the slide at index i is the one numbered i + 1 |
| `AppContext.ReachableStateHasSlide` | src/context/AppContext.jsx:187-213 | in every state reached from the initial state the getter finds a slide |
| `AppContext.RestoreSavedSlide` | src/context/AppContext.jsx:195-203 | a stored index is applied only when it lies in `[0, totalSlides)`, changing only index and direction; anything else leaves the state unchanged |
| `AppContext.MountEffects` | src/context/AppContext.jsx:189-203 | with the save effect running first, the load effect reads back the current index: the slide never moves, and on an in-range state only the direction becomes backward |
| `AppContext.ReloadNeverResumes` | src/context/AppContext.jsx:189-203 | whatever index the store held, the app starts on slide 0 after mounting |
| `SlideNavigation.GoToNextSlide` | src/hooks/useSlideNavigation.js:12-16 | skipping the dispatch on the last slide ends in the same state as the reducer's NEXT_SLIDE would: on the last slide nothing changes, below it the index advances by one going forward |
| `SlideNavigation.GoToPrevSlide` | src/hooks/useSlideNavigation.js:18-22 | skipping the dispatch on the first slide ends in the same state as the reducer's PREV_SLIDE would: on the first slide nothing changes, above it the index goes back by one going backward |
| `SlideNavigation.GoToSlide` | src/hooks/useSlideNavigation.js:24-26 | the index goes to the reducer unchecked, so the result is the reducer's GO_TO_SLIDE: in range it becomes current, otherwise nothing changes |
| `SlideNavigation.UseSlideNavigation` | src/hooks/useSlideNavigation.js:28-37 | the returned index, count and direction are the state's own; on a valid state `isFirstSlide` / `isLastSlide` hold exactly when previous / next would change nothing |
| `SlideNavigation.StepsKeepValid` | src/hooks/useSlideNavigation.js:12-22 | any run of next/previous presses keeps a valid state valid |
| `SlideNavigation.NextThriceThenPrev` | src/hooks/useSlideNavigation.js:12-22 | from the initial state, three nexts reach slide 3 going forward and one previous then reaches slide 2 going backward |
| `TicTacToe.FirstWinFrom` | src/components/slides/TicTacToeSlide.jsx:31-44 | a reported result is a completed line whose cells hold the reported mark |
| `TicTacToe.FirstWinReturnsFirstCompleted` | src/components/slides/TicTacToeSlide.jsx:7-44 | when line m is the first completed one in `WINNING_LINES` order, the check reports that line and its mark |
| `TicTacToe.FirstWinNoneIffNoCompletedLine` | src/components/slides/TicTacToeSlide.jsx:31-44 | the check reports nothing exactly when no line is completed |
| `TicTacToe.CheckWinner` | src/components/slides/TicTacToeSlide.jsx:31-44 | the loop over the lines returns the first completed line with its mark, or nothing, and does not modify the board |
| `TicTacToe.SeedHasNoWinner` | src/components/slides/TicTacToeSlide.jsx:22 | the seed board has no completed line |
| `TicTacToe.SeedCentreWinsOnDiagonal` | src/components/slides/TicTacToeSlide.jsx:7-22 | a heart in the seed's centre completes exactly one line, the diagonal 0-4-8, so the heart wins on it |
| `TicTacToe.Game.constructor` | src/components/slides/TicTacToeSlide.jsx:22-27 | the slide mounts with the seed board, no winner or line, and the instructions shown |
| `TicTacToe.Game.ClickAccepted` | src/components/slides/TicTacToeSlide.jsx:47-49 | on the seeded board only a click on the centre is acted on; after the win no click is |
| `TicTacToe.Game.IsCellDisabled` | src/components/slides/TicTacToeSlide.jsx:121 | a cell button is disabled exactly when a click on it would be ignored |
| `TicTacToe.Game.HandleGameEnd` | src/components/slides/TicTacToeSlide.jsx:63-71 | records the winner and line; switches to the win message and fires one burst only for a heart win |
| `TicTacToe.Game.HandleCellClick` | src/components/slides/TicTacToeSlide.jsx:47-60 | a click on an occupied cell, after a win or off the centre changes nothing; an accepted one puts a heart in the centre of a fresh copy, leaves other cells as they were, and wins on 0-4-8 with one burst; after a win the board stays frozen |
| `TicTacToe.Game.ResetGame` | src/components/slides/TicTacToeSlide.jsx:74-79 | the board is the seed again, winner and line cleared, instructions shown |
| `GiftSequence.Tap` | src/components/slides/GiftSequenceSlide.jsx:14-25 | a tap on a closed box opens it without moving; a tap on an open box closes it and moves to the next gift, wrapping from the last to the first; the index stays a gift index |
| `GiftSequence.NextIndexWraps` | src/components/slides/GiftSequenceSlide.jsx:22 | `(i + 1) % length` is the next index, and 0 after the last |
| `GiftSequence.TapsFromStart` | src/components/slides/GiftSequenceSlide.jsx:9-25 | after 2k taps from the first, closed box, gift k is showing, closed |
| `GiftSequence.TapsCycle` | src/components/slides/GiftSequenceSlide.jsx:9-28 | two taps per gift bring the carousel back to its start, and no shorter positive run does |
| `GiftSequence.GiftCarousel.constructor` | src/components/slides/GiftSequenceSlide.jsx:9-11 | the slide mounts on the first gift, closed |
| `GiftSequence.GiftCarousel.HandleGiftInteraction` | src/components/slides/GiftSequenceSlide.jsx:14-25 | the two state variables move as one tap says, and the index stays a gift index |
| `GiftSequence.StackOffset` | src/components/slides/GiftSequenceSlide.jsx:52 | a box's offset behind the current one lies in `[0, length)` and is 0 exactly for the current box |
| `GiftSequence.StackOffsetBounds` | src/components/slides/GiftSequenceSlide.jsx:52 | the offset is the forward distance from the current box, wrapping past the end of the list |
| `GiftSequence.StackZIndex` | src/components/slides/GiftSequenceSlide.jsx:60 | a box drawn at a non-negative offset gets a z-index below the current box's |
| `GiftSequence.CurrentZIndex` | src/components/slides/GiftSequenceSlide.jsx:101 | the current box's z-index lies above the list length, the largest any stacked box gets |
| `GiftSequence.InStack` | src/components/slides/GiftSequenceSlide.jsx:52-53 | a box is drawn behind exactly when it is the next or second-next gift cyclically and not the current one |
| `GiftSequence.StackedFrom` | src/components/slides/GiftSequenceSlide.jsx:51-53 | the boxes drawn are exactly those at offset 1 or 2, in list order |
| `GiftSequence.StackedBoxes` | src/components/slides/GiftSequenceSlide.jsx:51-53 | while open no box is drawn behind; while closed exactly the stacked boxes of the list are, at most two |
| `GiftSequence.StackedFromShort` | src/components/slides/GiftSequenceSlide.jsx:51-53 | the list of stacked boxes holds at most two |
| `GiftSequence.StackedBoxesBeneath` | src/components/slides/GiftSequenceSlide.jsx:51-101 | every box drawn behind is not the current one and has a z-index below the current box's |
| `GiftSequence.IsActiveDot` | src/components/slides/GiftSequenceSlide.jsx:228 | definition; properties in `GiftSequence.ExactlyOneActiveDot` |
| `GiftSequence.ExactlyOneActiveDot` | src/components/slides/GiftSequenceSlide.jsx:224-228 | exactly one progress dot is highlighted, the current gift's |
| `Slides.GetTotalSlides` | src/data/slides.js:130 | the slide count is the table's length, six |
| `Slides.Find` | src/data/slides.js:132 | a found slide is in the table and has the requested id |
| `Slides.GetSlideById` | src/data/slides.js:132 | a found slide is in the table and has the requested id |
| `Slides.FindReturnsFirstMatch` | src/data/slides.js:132 | the lookup returns the first slide with the id |
| `Slides.FindNoneIffAbsent` | src/data/slides.js:132 | the lookup is undefined exactly when no slide has the id |
| `Slides.SlidesDataWellFormed` | src/data/slides.js:1-128 | ids are pairwise distinct and slide k has order k + 1 |
| `Slides.GetSlideByIdFindsEachSlide` | src/data/slides.js:1-132 | every slide is found by its own id |
| `Slides.GiftSlideHasThreeGifts` | src/data/slides.js:57-89 | the gift-sequence slide carries three gifts, so the carousel's list is non-empty |
| `MusicPlayer.RemReal` | src/components/slides/MusicPlayerSlide.jsx:15 | JavaScript's `%` on numbers with a positive divisor lies in `[0, divisor)` for a non-negative dividend and in `(-divisor, 0]` for a negative one |
| `MusicPlayer.FormatTime` | src/components/slides/MusicPlayerSlide.jsx:13-17 | a non-negative time renders as decimal minutes, a colon, and two-digit seconds below 60, and reading the text back gives its whole seconds |
| `MusicPlayer.FloorParts` | src/components/slides/MusicPlayerSlide.jsx:13-15 | for a non-negative time the minutes are its whole seconds over 60 and the seconds field is the remainder |
| `MusicPlayer.TwoDigits` | src/components/slides/MusicPlayerSlide.jsx:16 | the padded seconds field is exactly two digits that read back as the seconds |
| `MusicPlayer.ParseTimeOfJoin` | src/components/slides/MusicPlayerSlide.jsx:16 | minutes, a colon and two-digit seconds read back as their total |
| `MusicPlayer.Progress` | src/components/slides/MusicPlayerSlide.jsx:26 | the progress is 0 when the duration is not positive, lies in `[0, 100]` while the time is within the duration, and is the time's share of the duration in percent |
| `JsBuiltins.Rem` | src/components/slides/GiftSequenceSlide.jsx:22 | JavaScript's `%` keeps the sign of the dividend, lies below the divisor in size, and agrees with the mathematical remainder for non-negative operands |
| `JsBuiltins.RemOfSmaller` | src/components/slides/GiftSequenceSlide.jsx:52 | a dividend below the divisor is its own remainder |
| `JsBuiltins.RemWrapsOnce` | src/components/slides/GiftSequenceSlide.jsx:52 | a dividend between one and two divisors loses one divisor |
| `JsBuiltins.NatToString` | src/components/slides/MusicPlayerSlide.jsx:16 | an integer's text is a non-empty run of digits with no leading zero |
| `JsBuiltins.NatToStringShort` | src/components/slides/MusicPlayerSlide.jsx:16 | one digit exactly below ten, two exactly from ten to 99 |
| `JsBuiltins.DecimalValueOfNatToString` | src/components/slides/MusicPlayerSlide.jsx:16 | an integer's digits read back as the integer |
| `JsBuiltins.IntToStringRoundTrip` | src/context/AppContext.jsx:191-198 | `parseInt` of an integer's `toString` text gives the integer back, negative ones included |
| `JsBuiltins.PadStart` | src/components/slides/MusicPlayerSlide.jsx:16 | padding keeps the string as a suffix, fills the front with the fill character, and reaches the width unless the string is already longer |

## Left out

- Browser storage itself (src/context/AppContext.jsx:190-203): `MountEffects` passes the text the save effect writes straight to the load effect, and re-renders after the mount are not modelled. `JsBuiltins.ParseInt` reads only text of the form `toString` writes; the leniency of `parseInt` (leading whitespace, trailing characters) is not modelled. `RestoreSavedSlide` takes the parsed value as an `Option<int>`, where `None` stands for an empty store and for NaN.
- Reducer payloads that are not integers: GO_TO_SLIDE is modelled with an integer target. Fractional or NaN payloads, which JavaScript would also accept, are not modelled. UPDATE_GAME_STATE patches only the four known game fields; extra payload keys are not modelled.
- `GiftSequence.GiftCarousel.constructor`: requires a non-empty gift list. With no gifts the source computes `(i + 1) % 0`, which is NaN in JavaScript; that path is not modelled. The only gift list in the slide table has three gifts (`Slides.GiftSlideHasThreeGifts`).
- The 100 ms timer between closing a box and advancing the index (src/components/slides/GiftSequenceSlide.jsx:21-23): the two are one step here.
- The confetti burst is a call into a third-party canvas library. `TicTacToe.Game` counts the bursts requested (`bursts`) instead.
- `MusicPlayer.FormatTime`: states the rendering for non-negative times only. `FormatTime` follows the source for negative times too (floor division, truncating remainder, a minus sign), but nothing is proved about them. NaN and infinite durations are floating-point cases that are not modelled.
- The seek handler's pixel-to-time scaling (src/components/slides/MusicPlayerSlide.jsx:19-24) is DOM geometry on floats.
- Audio playback, the volume clamp, asset preloading, floating hearts, the clock-dependent thank-you card, the error boundary, and every component that only renders (controls, dot navigation, slide container, welcome and message slides). They are I/O, timing, randomness or markup.
- Slide backgrounds in the table are colours for styling and are not part of `Slides.Slide`.
- Keyboard wiring: src/components/common/SlideContainer.jsx:26-29 passes one object `{ onNext, onPrev }` where src/hooks/useKeyboardNav.js:3 expects two callbacks. The arrow-key handler would then call a non-function. Window listeners are not modelled, so this defect is recorded here only.
