/**
 * The navigation hook (src/hooks/useSlideNavigation.js): guarded dispatches
 * of the navigation actions, composed here with the reducer.
 */
module SlideNavigation {
  import opened Wrappers
  import opened AppContext

  /** What the hook hands to its callers besides the three callbacks. */
  datatype Navigation = Navigation(
    currentSlide: int, totalSlides: int, direction: int,
    isFirstSlide: bool, isLastSlide: bool)

  /** The action `goToNextSlide` dispatches: NEXT_SLIDE, or none on the last slide. */
  function NextSlideDispatch(s: State): (d: Option<Action>)
    ensures d.Some? <==> !IsLastSlide(s)
    ensures d.Some? ==> d.value == NextSlide
  {
    if !IsLastSlide(s) then Some(NextSlide) else None
  }

  /** The action `goToPrevSlide` dispatches: PREV_SLIDE, or none on the first slide. */
  function PrevSlideDispatch(s: State): (d: Option<Action>)
    ensures d.Some? <==> !IsFirstSlide(s)
    ensures d.Some? ==> d.value == PrevSlide
  {
    if !IsFirstSlide(s) then Some(PrevSlide) else None
  }

  /** `dispatch`, for an action that may not have been sent. */
  function Dispatch(s: State, d: Option<Action>): State {
    if d.Some? then Reduce(s, d.value) else s
  }

  /** The state after `goToNextSlide()`. */
  function GoToNextSlide(s: State): (r: State)
    ensures r == Reduce(s, NextSlide)
    ensures IsLastSlide(s) ==> r == s
    ensures InRange(s) && !IsLastSlide(s) ==> r.currentSlide == s.currentSlide + 1 && r.direction == Forward
  {
    Dispatch(s, NextSlideDispatch(s))
  }

  /** The state after `goToPrevSlide()`. */
  function GoToPrevSlide(s: State): (r: State)
    ensures r == Reduce(s, PrevSlide)
    ensures IsFirstSlide(s) ==> r == s
    ensures InRange(s) && !IsFirstSlide(s) ==> r.currentSlide == s.currentSlide - 1 && r.direction == Backward
  {
    Dispatch(s, PrevSlideDispatch(s))
  }

  /** The state after `goToSlide(index)`: the index goes to the reducer unchecked. */
  function GoToSlide(s: State, index: int): (r: State)
    ensures r == Reduce(s, AppContext.GoToSlide(index))
    ensures 0 <= index < s.totalSlides ==> r.currentSlide == index
    ensures !(0 <= index < s.totalSlides) ==> r == s
  {
    Dispatch(s, Some(AppContext.GoToSlide(index)))
  }

  /**
   * The values the hook returns, read from the state as they are; on a valid
   * state the two flags say exactly when the matching callback would do nothing.
   */
  function UseSlideNavigation(s: State): (n: Navigation)
    ensures n.currentSlide == s.currentSlide && n.totalSlides == s.totalSlides
    ensures n.direction == s.direction
    ensures n.isFirstSlide <==> s.currentSlide == 0
    ensures n.isLastSlide <==> s.currentSlide == s.totalSlides - 1
    ensures Valid(s) ==> (n.isFirstSlide <==> GoToPrevSlide(s) == s)
    ensures Valid(s) ==> (n.isLastSlide <==> GoToNextSlide(s) == s)
  {
    Navigation(s.currentSlide, s.totalSlides, s.direction, IsFirstSlide(s), IsLastSlide(s))
  }

  /**
   * Forward and back through the hook never leave the list: any number of
   * steps keeps a valid state valid.
   */
  lemma {:induction false} StepsKeepValid(s: State, forward: seq<bool>)
    requires Valid(s)
    ensures Valid(Steps(s, forward))
    decreases |forward|
  {
    if forward != [] {
      var t := if forward[0] then GoToNextSlide(s) else GoToPrevSlide(s);
      StepsKeepValid(t, forward[1..]);
    }
  }

  /** Pressing next (true) or previous (false) in turn. */
  function Steps(s: State, forward: seq<bool>): State
    decreases |forward|
  {
    if forward == [] then s
    else Steps(if forward[0] then GoToNextSlide(s) else GoToPrevSlide(s), forward[1..])
  }

  /** From the first of six slides: next three times, then previous once. */
  lemma NextThriceThenPrev()
    ensures var s := Steps(InitialState, [true, true, true]);
            s.currentSlide == 3 && s.direction == Forward
    ensures var s := Steps(InitialState, [true, true, true, false]);
            s.currentSlide == 2 && s.direction == Backward
  {
  }
}
