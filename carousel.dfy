/** The index of the image a carousel shows: a counter over the list of
    items that wraps from the last item to the first and back. */
module Carousel {

  /** The index after moveCarousel: one more, or 0 when that would be the
      length of the list. */
  function NextIndex(current: int, length: nat): (next: int)
    ensures 0 <= current < length ==> 0 <= next < length && next == (current + 1) % length
    ensures current + 1 != length ==> next == current + 1
  {
    if current + 1 == length then 0 else current + 1
  }

  /** The index after onPreviousClick: one less, or the last index when that
      would be negative. */
  function PreviousIndex(current: int, length: nat): (previous: int)
    ensures 0 <= current < length ==> 0 <= previous < length && previous == (current - 1) % length
    ensures current - 1 >= 0 ==> previous == current - 1
  {
    if current - 1 < 0 then length - 1 else current - 1
  }

  /** On a non-empty list, a step back undoes a step forward and a step
      forward undoes a step back. */
  lemma PreviousUndoesNext(current: int, length: nat)
    requires 0 <= current < length
    ensures PreviousIndex(NextIndex(current, length), length) == current
    ensures NextIndex(PreviousIndex(current, length), length) == current
  {
  }

  /** Outside the range the steps do not wrap: an index past the end of the
      list, as changeImage may leave it, keeps climbing, and a step back from
      it then is not undone by a step forward. */
  lemma PastTheEndDrifts()
    ensures NextIndex(5, 3) == 6 && NextIndex(NextIndex(5, 3), 3) == 7
    ensures PreviousIndex(3, 3) == 2 && NextIndex(PreviousIndex(3, 3), 3) == 0
  {
  }

  /** The index after k calls of moveCarousel, such as k ticks of the timer. */
  function Advance(current: int, length: nat, k: nat): int
  {
    if k == 0 then current else NextIndex(Advance(current, length, k - 1), length)
  }

  /** k forward steps from an index in range land k places further on,
      counted round the list. */
  lemma {:induction false} AdvanceWraps(current: int, length: nat, k: nat)
    requires 0 <= current < length
    ensures Advance(current, length, k) == (current + k) % length
  {
    if k > 0 {
      AdvanceWraps(current, length, k - 1);
      var before := Advance(current, length, k - 1);
      assert before == (current + k - 1) % length;
      ModuloStep(current + k - 1, length);
    }
  }

  /** A positive multiple of a positive length is at least that length. */
  lemma MultipleAtLeast(d: int, length: int)
    requires d >= 1 && length > 0
    ensures d * length >= length
  {
  }

  /** The remainder of x on division by length is r whenever x is some
      multiple of length plus r. */
  lemma RemainderUnique(x: int, length: int, q: int, r: int)
    requires 0 <= r < length && x == q * length + r
    ensures x % length == r
  {
    var q', r' := x / length, x % length;
    assert x == q' * length + r';
    assert (q - q') * length == r' - r;
    if q > q' {
      MultipleAtLeast(q - q', length);
    } else if q < q' {
      MultipleAtLeast(q' - q, length);
    }
  }

  /** One step further on, counted round the list. */
  lemma ModuloStep(a: nat, length: nat)
    requires 0 < length
    ensures (a % length + 1) % length == (a + 1) % length
  {
    var q, r := a / length, a % length;
    if r + 1 < length {
      RemainderUnique(a + 1, length, q, r + 1);
      RemainderUnique(r + 1, length, 0, r + 1);
    } else {
      RemainderUnique(a + 1, length, q + 1, 0);
      RemainderUnique(r + 1, length, 1, 0);
    }
  }

  /** A full round of forward steps brings the carousel back to where it
      started. */
  lemma FullRound(current: int, length: nat)
    requires 0 <= current < length
    ensures Advance(current, length, length) == current
  {
    AdvanceWraps(current, length, length);
    RemainderUnique(current + length, length, 1, current);
  }

  /** The component's state: the list of items it shows and the index of the
      one on display. */
  class CarouselComponent {
    var carouselItems: seq<string>
    var currentCarouselItem: int

    /** The index points into the list. */
    ghost predicate InRange()
      reads this
    {
      0 <= currentCarouselItem < |carouselItems|
    }

    /** A carousel over the given items, showing the first. */
    constructor(items: seq<string>)
      ensures carouselItems == items && currentCarouselItem == 0
      ensures items != [] ==> InRange()
    {
      carouselItems := items;
      currentCarouselItem := 0;
    }

    method MoveCarousel()
      modifies this
      ensures carouselItems == old(carouselItems)
      ensures currentCarouselItem == NextIndex(old(currentCarouselItem), |carouselItems|)
      ensures old(InRange()) ==> InRange()
    {
      var next := currentCarouselItem + 1;
      currentCarouselItem := if next == |carouselItems| then 0 else next;
    }

    /** The timer reset that comes first is not part of this model. */
    method OnPreviousClick()
      modifies this
      ensures carouselItems == old(carouselItems)
      ensures currentCarouselItem == PreviousIndex(old(currentCarouselItem), |carouselItems|)
      ensures old(InRange()) ==> InRange()
    {
      var previous := currentCarouselItem - 1;
      currentCarouselItem := if previous < 0 then |carouselItems| - 1 else previous;
    }

    /** The timer reset that comes first is not part of this model. */
    method OnNextClick()
      modifies this
      ensures carouselItems == old(carouselItems)
      ensures currentCarouselItem == NextIndex(old(currentCarouselItem), |carouselItems|)
      ensures old(InRange()) ==> InRange()
    {
      MoveCarousel();
    }

    /** Shows the item at the given index, which is not checked against the
        length of the list. */
    method ChangeImage(imageIndex: int)
      modifies this
      ensures carouselItems == old(carouselItems) && currentCarouselItem == imageIndex
    {
      currentCarouselItem := imageIndex;
    }
  }
}
