/**
 * app/components/SlideShowSection.tsx: the gallery's slide cursor. The
 * arrows move it one slide forward or back with wrap-around, an interval
 * timer moves it forward, and the indicator dots jump to a slide.
 */
module SlideShowSection {

  datatype Slide = Slide(id: int, imageUrl: string, title: string, description: string)

  const Slides: seq<Slide> := [
    Slide(1, "/images/slideshow/slide1.jpg", "Research in Progress",
      "Our team collecting data in the field"),
    Slide(2, "/images/slideshow/slide2.jpg", "Lab Analysis",
      "Processing samples in our state-of-the-art laboratory"),
    Slide(3, "/images/slideshow/slide3.jpg", "Team Meeting",
      "Collaborative discussions to interpret research findings"),
    Slide(4, "/images/slideshow/slide4.jpg", "Conference Presentation",
      "Sharing our research with the scientific community"),
    Slide(5, "/images/slideshow/slide5.jpg", "Technology Integration",
      "Using advanced technology to enhance our research capabilities")
  ]

  /** Five slides, numbered 1 to 5 in order. */
  lemma SlideDeck()
    ensures |Slides| == 5
    ensures forall k :: 0 <= k < |Slides| ==> Slides[k].id == k + 1
  {
  }

  /**
   * JavaScript's `%` on integers: truncating, so the remainder takes the sign
   * of the dividend. For a negative dividend only the range is stated; the
   * page never reaches that case, since the slide index only ever holds 0 to 4.
   */
  function JsRem(a: int, n: int): (r: int)
    requires n > 0
    ensures a >= 0 ==> r == a % n
    ensures a < 0 ==> -n < r <= 0
  {
    if a >= 0 then a % n else -((-a) % n)
  }

  predicate InRange(i: int) {
    0 <= i < |Slides|
  }

  /** The update `nextSlide` and the interval tick apply: `(prev + 1) % slides.length`. */
  function Next(i: int): (r: int)
    ensures InRange(i) ==> InRange(r)
    ensures InRange(i) && i + 1 < |Slides| ==> r == i + 1
    ensures i == |Slides| - 1 ==> r == 0
  {
    JsRem(i + 1, |Slides|)
  }

  /** The update `prevSlide` applies: `prev === 0 ? slides.length - 1 : prev - 1`. */
  function Prev(i: int): (r: int)
    ensures InRange(i) ==> InRange(r)
    ensures i == 0 ==> r == |Slides| - 1
    ensures InRange(i) && i > 0 ==> r == i - 1
  {
    if i == 0 then |Slides| - 1 else i - 1
  }

  /** Going back undoes going forward. */
  lemma PrevUndoesNext(i: int)
    requires InRange(i)
    ensures Prev(Next(i)) == i
  {
  }

  /** Going forward undoes going back. */
  lemma NextUndoesPrev(i: int)
    requires InRange(i)
    ensures Next(Prev(i)) == i
  {
  }

  /** The cursor after k forward steps from i. */
  function Advance(i: int, k: nat): int
    decreases k
  {
    if k == 0 then i else Next(Advance(i, k - 1))
  }

  /** Taking the remainder before adding one changes nothing modulo five. */
  lemma SuccessorMod5(x: nat)
    ensures (x % 5 + 1) % 5 == (x + 1) % 5
  {
    var q, r := x / 5, x % 5;
    assert x == 5 * q + r && 0 <= r < 5;
    if r < 4 {
      assert x + 1 == 5 * q + (r + 1);
    } else {
      assert x + 1 == 5 * (q + 1);
    }
  }

  /** k forward steps from a slide land k places on, modulo the number of slides. */
  lemma {:induction false} AdvanceIsOffset(i: int, k: nat)
    requires InRange(i)
    ensures Advance(i, k) == (i + k) % |Slides|
  {
    if k > 0 {
      AdvanceIsOffset(i, k - 1);
      var x: nat := i + k - 1;
      assert Advance(i, k) == Next(x % 5);
      assert Next(x % 5) == (x % 5 + 1) % 5;
      SuccessorMod5(x);
    }
  }

  /** As many forward steps as there are slides bring the cursor back to where it started. */
  lemma FullCycle(i: int)
    requires InRange(i)
    ensures Advance(i, |Slides|) == i
  {
    AdvanceIsOffset(i, |Slides|);
  }

  /** The slide index each indicator dot passes to `goToSlide`, one per slide in order. */
  function IndicatorTargets(): (targets: seq<int>)
    ensures |targets| == |Slides|
    ensures forall k :: 0 <= k < |targets| ==> targets[k] == k && InRange(targets[k])
  {
    seq(|Slides|, k => k)
  }

  /** The `currentSlide` state of the component. */
  class SlideShow {
    var currentSlide: int

    ghost predicate Valid()
      reads this
    {
      InRange(currentSlide)
    }

    constructor ()
      ensures currentSlide == 0 && Valid()
    {
      currentSlide := 0;
    }

    /** The slide currently shown. */
    function Current(): (s: Slide)
      reads this
      requires Valid()
      ensures s in Slides
    {
      Slides[currentSlide]
    }

    method NextSlide()
      modifies this
      ensures currentSlide == Next(old(currentSlide))
      ensures old(Valid()) ==> Valid()
    {
      currentSlide := JsRem(currentSlide + 1, |Slides|);
    }

    /** The interval callback: the same update as NextSlide. */
    method Tick()
      modifies this
      ensures currentSlide == Next(old(currentSlide))
      ensures old(Valid()) ==> Valid()
    {
      currentSlide := JsRem(currentSlide + 1, |Slides|);
    }

    method PrevSlide()
      modifies this
      ensures currentSlide == Prev(old(currentSlide))
      ensures old(Valid()) ==> Valid()
    {
      currentSlide := if currentSlide == 0 then |Slides| - 1 else currentSlide - 1;
    }

    /** `goToSlide(index)`: no bounds check; the cursor stays valid exactly when the index is a slide's. */
    method GoToSlide(index: int)
      modifies this
      ensures currentSlide == index
      ensures Valid() <==> InRange(index)
    {
      currentSlide := index;
    }
  }
}
