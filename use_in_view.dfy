/**
 * app/hooks/useInView.ts: a hook that watches one element with an
 * IntersectionObserver and reports whether it has come into view. With
 * `triggerOnce` (the default) the flag latches on the first intersection and
 * the element stops being observed; without it the flag follows the latest
 * intersection event. The observer is abstracted to the sequence of
 * `isIntersecting` values it reports.
 */
module UseInView {
  import opened Wrappers

  /** The hook's argument; None is an omitted member. */
  datatype InViewOptions = InViewOptions(threshold: Option<real>, triggerOnce: Option<bool>, rootMargin: Option<string>)

  /** The argument with the defaults filled in. */
  datatype Settings = Settings(threshold: real, triggerOnce: bool, rootMargin: string)

  /** `useInView()` called with no argument. */
  const NoOptions := InViewOptions(None, None, None)

  /** The destructuring defaults `threshold = 0.1, triggerOnce = true, rootMargin = '0px'`. */
  function Resolve(options: InViewOptions): (r: Settings)
    ensures options.threshold.None? ==> r.threshold == 0.1
    ensures options.triggerOnce.None? ==> r.triggerOnce
    ensures options.rootMargin.None? ==> r.rootMargin == "0px"
    ensures options.threshold.Some? ==> r.threshold == options.threshold.value
    ensures options.triggerOnce.Some? ==> r.triggerOnce == options.triggerOnce.value
    ensures options.rootMargin.Some? ==> r.rootMargin == options.rootMargin.value
  {
    Settings(options.threshold.GetOr(0.1), options.triggerOnce.GetOr(true), options.rootMargin.GetOr("0px"))
  }

  /** Omitted options default to a threshold of 0.1, trigger-once and a root margin of '0px'; given ones are kept. */
  lemma DefaultSettings(options: InViewOptions)
    ensures Resolve(NoOptions) == Settings(0.1, true, "0px")
    ensures options.triggerOnce.Some? ==> Resolve(options).triggerOnce == options.triggerOnce.value
    ensures options.threshold.Some? ==> Resolve(options).threshold == options.threshold.value
    ensures options.rootMargin.Some? ==> Resolve(options).rootMargin == options.rootMargin.value
  {
  }

  /** What the observer callback does to `isInView` for one entry. */
  function ViewStep(triggerOnce: bool, isInView: bool, isIntersecting: bool): (r: bool)
    ensures isIntersecting ==> r
    ensures triggerOnce && isInView ==> r
    ensures !isIntersecting && !triggerOnce ==> !r
    ensures !isIntersecting && triggerOnce ==> r == isInView
  {
    if isIntersecting then true
    else if !triggerOnce then false
    else isInView
  }

  /** `isInView` after the callback has seen the given entries, starting from false. */
  function ViewAfter(triggerOnce: bool, events: seq<bool>): (r: bool)
    ensures events == [] ==> !r
    ensures events != [] && events[|events| - 1] ==> r
    ensures !triggerOnce && events != [] && !events[|events| - 1] ==> !r
    decreases |events|
  {
    if events == [] then false
    else ViewStep(triggerOnce, ViewAfter(triggerOnce, events[..|events| - 1]), events[|events| - 1])
  }

  /** With trigger-once, the flag is set exactly when some entry so far was intersecting. */
  lemma {:induction false} LatchSetIffSomeIntersection(events: seq<bool>)
    ensures ViewAfter(true, events) <==> true in events
  {
    if events != [] {
      var front := events[..|events| - 1];
      LatchSetIffSomeIntersection(front);
      assert events == front + [events[|events| - 1]];
    }
  }

  /** With trigger-once, once the flag is set no later entries clear it. */
  lemma {:induction false} LatchIsMonotone(events: seq<bool>, later: seq<bool>)
    ensures ViewAfter(true, events) ==> ViewAfter(true, events + later)
  {
    LatchSetIffSomeIntersection(events);
    LatchSetIffSomeIntersection(events + later);
    if true in events {
      var k :| 0 <= k < |events| && events[k];
      assert (events + later)[k];
    }
  }

  /** Without trigger-once, the flag is the `isIntersecting` of the latest entry (false before any). */
  lemma TracksLatestEntry(events: seq<bool>)
    ensures ViewAfter(false, events) == (events != [] && events[|events| - 1])
  {
  }

  /** With trigger-once, an entry that is not intersecting changes nothing. */
  lemma NonIntersectingKeepsLatch(events: seq<bool>)
    ensures ViewAfter(true, events + [false]) == ViewAfter(true, events)
  {
    assert (events + [false])[..|events|] == events;
  }

  /** Seeing one more entry is one more step of the callback, and records whether it intersected. */
  lemma ViewAfterAppend(triggerOnce: bool, events: seq<bool>, e: bool)
    ensures ViewAfter(triggerOnce, events + [e]) == ViewStep(triggerOnce, ViewAfter(triggerOnce, events), e)
    ensures (true in events + [e]) <==> (true in events || e)
  {
    assert (events + [e])[..|events|] == events;
  }

  /** One use of the hook: the effect's observer and the state it drives. */
  class InViewObserver {
    const settings: Settings
    /** Whether `ref.current` held an element when the effect ran. */
    const hasElement: bool
    var isInView: bool
    /** Whether the observer is watching the element. */
    var observing: bool
    ghost var events: seq<bool>
    ghost var cleanedUp: bool

    ghost predicate Valid()
      reads this
    {
      && isInView == ViewAfter(settings.triggerOnce, events)
      && observing == (hasElement && !cleanedUp && !(settings.triggerOnce && true in events))
    }

    /** The initial state and the effect: observe the element if there is one. */
    constructor (options: InViewOptions, element: bool)
      ensures Valid()
      ensures settings == Resolve(options) && hasElement == element
      ensures !isInView && observing == element && events == [] && !cleanedUp
    {
      settings := Resolve(options);
      hasElement := element;
      isInView := false;
      observing := element;
      events := [];
      cleanedUp := false;
    }

    /** The observer callback for one entry; the observer reports entries only while it watches the element. */
    method OnEntry(isIntersecting: bool)
      requires Valid() && observing
      modifies this
      ensures Valid()
      ensures events == old(events) + [isIntersecting] && cleanedUp == old(cleanedUp)
      ensures isInView == ViewStep(settings.triggerOnce, old(isInView), isIntersecting)
      ensures observing == !(isIntersecting && settings.triggerOnce)
    {
      ghost var seen := events + [isIntersecting];
      ViewAfterAppend(settings.triggerOnce, events, isIntersecting);
      assert ViewAfter(settings.triggerOnce, seen) == ViewStep(settings.triggerOnce, isInView, isIntersecting);
      if isIntersecting {
        isInView := true;
        if settings.triggerOnce && hasElement {
          observing := false;
        }
      } else if !settings.triggerOnce {
        isInView := false;
      }
      events := seen;
      assert isInView == ViewAfter(settings.triggerOnce, events);
      assert (true in events) <==> (true in old(events) || isIntersecting);
    }

    /** The effect's cleanup: stop observing the element it observed. */
    method Cleanup()
      requires Valid()
      modifies this
      ensures Valid()
      ensures !observing && cleanedUp
      ensures isInView == old(isInView) && events == old(events)
    {
      if hasElement {
        observing := false;
      }
      cleanedUp := true;
    }
  }
}
