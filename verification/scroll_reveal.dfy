/**
 * Scroll-triggered reveal: elements marked `data-animate` get the one-way
 * `animate` marker once they have been seen in the viewport, and scroll
 * events are coalesced to at most one pending frame callback.
 */
module ScrollReveal {

  /** An element's bounding box, in viewport coordinates. */
  datatype Rect = Rect(top: real, bottom: real)

  /** Visible: the top edge is above three quarters of the viewport height and the bottom edge below its top. */
  predicate IsVisible(r: Rect, innerHeight: real) {
    r.top < innerHeight * 0.75 && r.bottom > 0.0
  }

  /**
   * The element indices one pass schedules a timer for, in document order:
   * each visible element that does not carry the marker yet.
   */
  function Scheduled(rects: seq<Rect>, innerHeight: real, animated: set<nat>): (s: seq<nat>)
    ensures forall k :: 0 <= k < |s| ==> s[k] < |rects|
    ensures forall k, m :: 0 <= k < m < |s| ==> s[k] < s[m]
    decreases |rects|
  {
    if rects == [] then []
    else
      var i := |rects| - 1;
      Scheduled(rects[..i], innerHeight, animated)
        + (if IsVisible(rects[i], innerHeight) && i !in animated then [i] else [])
  }

  /** An index is scheduled exactly when its element is visible and not yet marked. */
  lemma {:induction false} ScheduledIff(rects: seq<Rect>, innerHeight: real, animated: set<nat>, x: nat)
    ensures x in Scheduled(rects, innerHeight, animated)
        <==> x < |rects| && IsVisible(rects[x], innerHeight) && x !in animated
    decreases |rects|
  {
    if rects != [] {
      var i := |rects| - 1;
      ScheduledIff(rects[..i], innerHeight, animated, x);
    }
  }

  /** An element whose top edge is at or below three quarters of the viewport height is never scheduled. */
  lemma NotScheduledBelowTrigger(rects: seq<Rect>, innerHeight: real, animated: set<nat>, x: nat)
    requires x < |rects| && rects[x].top >= innerHeight * 0.75
    ensures !IsVisible(rects[x], innerHeight)
    ensures x !in Scheduled(rects, innerHeight, animated)
  {
    ScheduledIff(rects, innerHeight, animated, x);
  }

  class ScrollAnimations {
    /** The number of `data-animate` elements, fixed when the controller is built. */
    const count: nat
    /** Indices of elements that carry the `animate` marker. */
    var animated: set<nat>
    /** Timers not yet fired, each naming the element it will mark. */
    var pending: seq<nat>
    /** The throttle guard: a frame callback has been requested and has not run. */
    var ticking: bool
    /** Frame callbacks requested and not yet run. */
    var framesPending: nat

    ghost predicate Valid()
      reads this
    {
      (forall i :: i in animated ==> i < count) &&
      (forall k :: 0 <= k < |pending| ==> pending[k] < count) &&
      framesPending <= 1 &&
      (ticking <==> framesPending == 1)
    }

    /** Builds the controller and checks the initial viewport once. */
    constructor (count: nat, animated: set<nat>, rects: seq<Rect>, innerHeight: real)
      requires forall i :: i in animated ==> i < count
      requires |rects| == count
      ensures Valid()
      ensures this.count == count && this.animated == animated
      ensures pending == Scheduled(rects, innerHeight, animated)
      ensures !ticking && framesPending == 0
    {
      this.count := count;
      this.animated := animated;
      pending := [];
      ticking := false;
      framesPending := 0;
      new;
      CheckElements(rects, innerHeight);
    }

    /** One pass over the elements: schedules a timer for each visible, unmarked element; marks nothing itself. */
    method CheckElements(rects: seq<Rect>, innerHeight: real)
      requires Valid()
      requires |rects| == count
      modifies this`pending
      ensures Valid()
      ensures pending == old(pending) + Scheduled(rects, innerHeight, animated)
    {
      var i := 0;
      while i < count
        invariant 0 <= i <= count
        invariant pending == old(pending) + Scheduled(rects[..i], innerHeight, animated)
        invariant Valid()
      {
        assert rects[..i + 1][..i] == rects[..i];
        if IsVisible(rects[i], innerHeight) && i !in animated {
          pending := pending + [i];
        }
        i := i + 1;
      }
      assert rects[..count] == rects;
    }

    /** A scroll event: requests a frame callback unless one is already pending. */
    method OnScroll()
      requires Valid()
      modifies this`ticking, this`framesPending
      ensures Valid()
      ensures ticking && framesPending == 1
      ensures old(ticking) ==> framesPending == old(framesPending)
    {
      if !ticking {
        framesPending := framesPending + 1;
        ticking := true;
      }
    }

    /** The pending frame callback runs: one pass over the elements, then the guard is released. */
    method RunFrame(rects: seq<Rect>, innerHeight: real)
      requires Valid()
      requires framesPending > 0
      requires |rects| == count
      modifies this`pending, this`ticking, this`framesPending
      ensures Valid()
      ensures pending == old(pending) + Scheduled(rects, innerHeight, animated)
      ensures !ticking && framesPending == 0
    {
      CheckElements(rects, innerHeight);
      framesPending := framesPending - 1;
      ticking := false;
    }

    /** A pending timer fires: its element gains the marker, which is never taken away. */
    method RunTimer(k: nat)
      requires Valid()
      requires k < |pending|
      modifies this`pending, this`animated
      ensures Valid()
      ensures animated == old(animated) + {old(pending)[k]}
      ensures old(animated) <= animated
      ensures pending == old(pending)[..k] + old(pending)[k + 1..]
    {
      animated := animated + {pending[k]};
      pending := pending[..k] + pending[k + 1..];
    }
  }
}
