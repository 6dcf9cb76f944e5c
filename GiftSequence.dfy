/**
 * The stacked gift boxes of src/components/slides/GiftSequenceSlide.jsx:
 * each tap opens the current box, the next tap closes it and moves on to the
 * following gift, cyclically; behind a closed box the next two boxes show.
 */
module GiftSequence {
  import JsBuiltins

  /** The component's two state variables. */
  datatype Carousel = Carousel(currentGiftIndex: int, isOpened: bool)

  /** The carousel as the component mounts it. */
  const Start: Carousel := Carousel(0, false)

  /**
   * One `handleGiftInteraction`: open the closed box, or close the open one
   * and advance the index modulo the number of gifts (the component does the
   * advance 100 ms later; here both happen in one step).
   */
  function Tap(c: Carousel, giftCount: nat): (r: Carousel)
    requires giftCount > 0
    ensures !c.isOpened ==> r.isOpened && r.currentGiftIndex == c.currentGiftIndex
    ensures c.isOpened && 0 <= c.currentGiftIndex < giftCount ==>
              !r.isOpened
              && r.currentGiftIndex == if c.currentGiftIndex == giftCount - 1 then 0 else c.currentGiftIndex + 1
    ensures 0 <= c.currentGiftIndex < giftCount ==> 0 <= r.currentGiftIndex < giftCount
  {
    if !c.isOpened then c.(isOpened := true)
    else
      NextIndexWraps(c.currentGiftIndex, giftCount);
      Carousel(JsBuiltins.Rem(c.currentGiftIndex + 1, giftCount), false)
  }

  /** `(i + 1) % n` steps through the indices below `n` and wraps from the last to 0. */
  lemma NextIndexWraps(i: int, n: nat)
    requires n > 0
    ensures 0 <= i < n ==> JsBuiltins.Rem(i + 1, n) == if i == n - 1 then 0 else i + 1
  {
    if 0 <= i < n - 1 {
      JsBuiltins.RemOfSmaller(i + 1, n);
    } else if i == n - 1 {
      JsBuiltins.RemWrapsOnce(i + 1, n);
    }
  }

  /** The carousel after `n` taps. */
  function Taps(c: Carousel, giftCount: nat, n: nat): Carousel
    requires giftCount > 0
    decreases n
  {
    if n == 0 then c else Taps(Tap(c, giftCount), giftCount, n - 1)
  }

  lemma {:induction false} TapsCompose(c: Carousel, giftCount: nat, m: nat, n: nat)
    requires giftCount > 0
    ensures Taps(c, giftCount, m + n) == Taps(Taps(c, giftCount, m), giftCount, n)
    decreases m
  {
    if m > 0 {
      TapsCompose(Tap(c, giftCount), giftCount, m - 1, n);
    }
  }

  /** After 2k taps from the start, gift k is showing, closed, as long as k is a gift index. */
  lemma {:induction false} TapsFromStart(giftCount: nat, k: nat)
    requires 0 <= k < giftCount
    ensures Taps(Start, giftCount, 2 * k) == Carousel(k, false)
  {
    if k > 0 {
      TapsFromStart(giftCount, k - 1);
      TapsCompose(Start, giftCount, 2 * (k - 1), 2);
    }
  }

  /** Two taps per gift bring the carousel back to where it started: it always cycles. */
  lemma TapsCycle(giftCount: nat)
    requires giftCount > 0
    ensures Taps(Start, giftCount, 2 * giftCount) == Start
    ensures forall n :: 0 < n < 2 * giftCount ==> Taps(Start, giftCount, n) != Start
  {
    TapsFromStart(giftCount, giftCount - 1);
    TapsCompose(Start, giftCount, 2 * (giftCount - 1), 2);
    forall n | 0 < n < 2 * giftCount
      ensures Taps(Start, giftCount, n) != Start
    {
      TapsFromStart(giftCount, n / 2);
      if n % 2 == 1 {
        TapsCompose(Start, giftCount, 2 * (n / 2), 1);
      }
    }
  }

  /** The component's state as an object whose taps update it in place. */
  class GiftCarousel {
    var currentGiftIndex: int
    var isOpened: bool
    const giftCount: nat

    ghost predicate Valid()
      reads this
    {
      giftCount > 0 && 0 <= currentGiftIndex < giftCount
    }

    function State(): Carousel
      reads this
    {
      Carousel(currentGiftIndex, isOpened)
    }

    /** Mounting over a list of `giftCount` gifts: the first box, closed. */
    constructor (giftCount: nat)
      requires giftCount > 0
      ensures Valid() && State() == Start && this.giftCount == giftCount
    {
      this.giftCount := giftCount;
      currentGiftIndex := 0;
      isOpened := false;
    }

    /** `handleGiftInteraction()`. */
    method HandleGiftInteraction()
      requires Valid()
      modifies this
      ensures Valid() && State() == Tap(old(State()), giftCount)
    {
      if !isOpened {
        isOpened := true;
      } else {
        isOpened := false;
        currentGiftIndex := JsBuiltins.Rem(currentGiftIndex + 1, giftCount);
      }
    }
  }

  /** How far box `index` sits behind the current one: `(index - current + len) % len`. */
  function StackOffset(index: int, current: int, len: int): (r: int)
    requires len > 0
    ensures 0 <= index < len && 0 <= current < len ==> 0 <= r < len && (r == 0 <==> index == current)
  {
    JsBuiltins.RemBelowTwice(index - current + len, len);
    JsBuiltins.Rem(index - current + len, len)
  }

  /** For boxes of the list, the offset is a position in the list and is 0 only for the current box. */
  lemma StackOffsetBounds(index: int, current: int, len: int)
    requires 0 <= index < len && 0 <= current < len
    ensures 0 <= StackOffset(index, current, len) < len
    ensures StackOffset(index, current, len) == 0 <==> index == current
    ensures index >= current ==> StackOffset(index, current, len) == index - current
    ensures index < current ==> StackOffset(index, current, len) == index - current + len
  {
    var x := index - current + len;
    if index >= current {
      JsBuiltins.RemWrapsOnce(x, len);
    } else {
      JsBuiltins.RemOfSmaller(x, len);
    }
  }

  /** The z-index of a box drawn `offset` places behind. */
  function StackZIndex(offset: int, len: int): (z: int)
    ensures 0 <= offset ==> z < CurrentZIndex(len)
  {
    len - offset
  }

  /** The z-index of the current box: above every z-index the list's boxes are given. */
  function CurrentZIndex(len: int): (z: int)
    ensures z > len
  {
    len + 1
  }

  /**
   * Box `index` is drawn behind the current one: offset 1 or 2. For boxes of
   * the list these are the next box and the one after, cyclically, never the
   * current one.
   */
  predicate InStack(index: int, current: int, len: int)
    requires len > 0
    ensures 0 <= index < len && 0 <= current < len ==>
              (InStack(index, current, len) <==>
                 index != current
                 && (index == JsBuiltins.Rem(current + 1, len) || index == JsBuiltins.Rem(current + 2, len)))
  {
    JsBuiltins.RemBelowTwice(index - current + len, len);
    JsBuiltins.RemBelowTwice(current + 1, len);
    JsBuiltins.RemBelowTwice(current + 2, len);
    var offset := StackOffset(index, current, len);
    offset != 0 && offset <= 2
  }

  /** The boxes among `k .. len - 1` drawn behind the current one, in list order. */
  function StackedFrom(k: nat, current: int, len: nat): (r: seq<nat>)
    requires len > 0
    ensures forall i :: 0 <= i < |r| ==> k <= r[i] < len && InStack(r[i], current, len)
    ensures forall i, j :: 0 <= i < j < |r| ==> r[i] < r[j]
    ensures forall x :: k <= x < len && InStack(x, current, len) ==> x in r
    decreases len - k
  {
    if k >= len then []
    else if InStack(k, current, len) then [k] + StackedFrom(k + 1, current, len)
    else StackedFrom(k + 1, current, len)
  }

  /**
   * The boxes drawn behind the current one: none while it is open; while it
   * is closed, exactly the boxes of the list in the stack, at most two.
   */
  function StackedBoxes(current: int, len: nat, isOpened: bool): (r: seq<nat>)
    requires len > 0
    ensures isOpened ==> r == []
    ensures forall x :: x in r <==> !isOpened && 0 <= x < len && InStack(x, current, len)
    ensures 0 <= current < len ==> |r| <= 2
  {
    if isOpened then []
    else if 0 <= current < len then
      StackedFromShort(current, len);
      StackedFrom(0, current, len)
    else StackedFrom(0, current, len)
  }

  lemma {:induction false} IncreasingWithinSetIsShort(s: seq<nat>, a: set<nat>)
    requires forall i, j :: 0 <= i < j < |s| ==> s[i] < s[j]
    requires forall i :: 0 <= i < |s| ==> s[i] in a
    ensures |s| <= |a|
  {
    if s != [] {
      IncreasingWithinSetIsShort(s[1..], a - {s[0]});
    }
  }

  /** The stack, listed in increasing order, draws from a set of two boxes. */
  lemma StackedFromShort(current: int, len: nat)
    requires 0 <= current < len
    ensures |StackedFrom(0, current, len)| <= 2
  {
    var r := StackedFrom(0, current, len);
    var a: set<nat> := {JsBuiltins.Rem(current + 1, len), JsBuiltins.Rem(current + 2, len)};
    forall i | 0 <= i < |r|
      ensures r[i] in a
    {
    }
    IncreasingWithinSetIsShort(r, a);
  }

  /** Every box drawn behind the current one sits beneath it. */
  lemma StackedBoxesBeneath(current: int, len: nat, isOpened: bool)
    requires 0 <= current < len
    ensures forall x :: x in StackedBoxes(current, len, isOpened) ==>
                          x != current && StackZIndex(StackOffset(x, current, len), len) < CurrentZIndex(len)
  {
    forall x | x in StackedBoxes(current, len, isOpened)
      ensures x != current && StackZIndex(StackOffset(x, current, len), len) < CurrentZIndex(len)
    {
      assert 0 <= StackOffset(x, current, len);
    }
  }

  /** The progress dot for `index` is highlighted. */
  predicate IsActiveDot(index: int, current: int) {
    index == current
  }

  /** Exactly one progress dot is highlighted, the current gift's. */
  lemma ExactlyOneActiveDot(current: int, len: nat)
    requires 0 <= current < len
    ensures (set i | 0 <= i < len && IsActiveDot(i, current)) == {current}
  {
  }
}
