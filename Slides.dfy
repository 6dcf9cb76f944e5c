/**
 * The constant table of slides (src/data/slides.js) and its two accessors.
 * A slide's `type` tag is kept as the string the view switch reads, and its
 * `content` is a variant per kind of slide; the background colours are style.
 */
module Slides {
  import opened Wrappers

  datatype Gift = Gift(icon: string, title: string, description: string)

  datatype Content =
    | WelcomeContent(heading: string, subheading: string)
    | GameContent(heading: string, instructions: string, winMessage: string)
    | TextContent(emoji: string, heading: string, messages: seq<string>, quote: string)
    | GiftContent(heading: string, instructions: string, gifts: seq<Gift>, completeMessage: string)
    | MusicContent(heading: string, description: string, audioSrc: string,
                   songTitle: string, artist: string, note: string)
    | ThankYouContent(heading: string, message: string, showChildrensDayButton: bool, finalWish: string)

  datatype Slide = Slide(id: string, kind: string, order: int, content: Content)

  const SlidesData: seq<Slide> := [
    Slide("welcome", "welcome", 1,
          WelcomeContent("For My Sweetu", "Made with love just for you 💕")),
    Slide("tictactoe", "interactive-game", 2,
          GameContent("Complete the Pattern!", "Tap the empty center box to win! 💗",
                      "You won my heart! 🎉")),
    Slide("sweet-message", "text", 3,
          TextContent("💖", "My Dearest",
                      ["I am so thankful to have you in my life.",
                       "You are the best and perfect.",
                       "Keep smiling madam ☺️"],
                      "You make every day brighter!")),
    Slide("gift-sequence", "gift-sequence", 4,
          GiftContent("Special Gifts for You", "Click to reveal each gift! 🎁",
                      [Gift("🌹", "Love", "My endless love for you"),
                       Gift("🎵", "Joy", "The happiness you bring to my life"),
                       Gift("✨", "Magic", "The magic of being with you")],
                      "All gifts revealed! You deserve them all! 💕")),
    Slide("music-player", "music-player", 5,
          MusicContent("A Song for You", "This reminds me of you 🎵", "/assets/audio/song.mp3",
                       "Our Song", "For My Sweetu",
                       "(Audio file needed - place in public/assets/audio/)")),
    Slide("thank-you", "thank-you", 6,
          ThankYouContent("Thank You! 💕", "You make my world brighter every single day.", true,
                          "Happy Children's Day, Bacha! 🎈 May your day be filled with joy, laughter, and endless happiness. You deserve all the love in the world! 💖"))
  ]

  /** `getTotalSlides()`: the length of the table, which holds six slides. */
  function GetTotalSlides(): (n: nat)
    ensures n == |SlidesData| && n == 6
  {
    |SlidesData|
  }

  /** `Array.prototype.find` with the predicate `slide.id === id`. */
  function Find(slides: seq<Slide>, id: string): (r: Option<Slide>)
    ensures r.Some? ==> r.value in slides && r.value.id == id
  {
    if slides == [] then None
    else if slides[0].id == id then Some(slides[0])
    else Find(slides[1..], id)
  }

  /** `getSlideById(id)`: the first slide of the table with that id, or undefined. */
  function GetSlideById(id: string): (r: Option<Slide>)
    ensures r.Some? ==> r.value in SlidesData && r.value.id == id
  {
    Find(SlidesData, id)
  }

  /** When slide `k` is the first with that id, `Find` returns exactly it. */
  lemma {:induction false} FindReturnsFirstMatch(slides: seq<Slide>, id: string, k: nat)
    requires k < |slides| && slides[k].id == id
    requires forall j :: 0 <= j < k ==> slides[j].id != id
    ensures Find(slides, id) == Some(slides[k])
  {
    if k > 0 {
      FindReturnsFirstMatch(slides[1..], id, k - 1);
    }
  }

  /** `Find` gives undefined exactly when no slide has that id. */
  lemma {:induction false} FindNoneIffAbsent(slides: seq<Slide>, id: string)
    ensures Find(slides, id).None? <==> forall k :: 0 <= k < |slides| ==> slides[k].id != id
  {
    if slides != [] && slides[0].id != id {
      FindNoneIffAbsent(slides[1..], id);
      assert forall k :: 1 <= k < |slides| ==> slides[k] == slides[1..][k - 1];
    }
  }

  /** The table's ids are pairwise distinct and slide `k` has `order` k + 1. */
  lemma SlidesDataWellFormed()
    ensures forall j, k :: 0 <= j < k < |SlidesData| ==> SlidesData[j].id != SlidesData[k].id
    ensures forall k :: 0 <= k < |SlidesData| ==> SlidesData[k].order == k + 1
  {
  }

  /** Every slide of the table is found by its own id. */
  lemma GetSlideByIdFindsEachSlide(k: nat)
    requires k < |SlidesData|
    ensures GetSlideById(SlidesData[k].id) == Some(SlidesData[k])
  {
    SlidesDataWellFormed();
    FindReturnsFirstMatch(SlidesData, SlidesData[k].id, k);
  }

  /** The gift-sequence slide, the fourth, carries three gifts. */
  lemma GiftSlideHasThreeGifts()
    ensures SlidesData[3].kind == "gift-sequence" && SlidesData[3].content.GiftContent?
    ensures |SlidesData[3].content.gifts| == 3
  {
  }
}
