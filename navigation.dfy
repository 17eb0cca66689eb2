/** Index arithmetic behind the slide navigation of `PlayListProject`:
    the wrap-around steps of `prevSlide` and `nextSlide` and the clamp that
    `firstUpdated` applies once the slides are known. */
module Navigation {

  /** `nextSlide`: one step forward, from the last slide back to the first.
      On a valid index this is the step `+1 mod slideCount`. */
  function Next(index: int, slideCount: int): (r: int)
    ensures 0 <= index < slideCount ==> 0 <= r < slideCount && r == (index + 1) % slideCount
  {
    if index < slideCount - 1 then index + 1 else 0
  }

  /** `prevSlide`: one step back, from the first slide round to the last.
      On a valid index this is the step `-1 mod slideCount`. */
  function Prev(index: int, slideCount: int): (r: int)
    ensures 0 <= index < slideCount ==> 0 <= r < slideCount && r == (index - 1) % slideCount
  {
    if index > 0 then index - 1 else slideCount - 1
  }

  /** `Math.max` on two integers. */
  function Max(a: int, b: int): (r: int)
    ensures r >= a && r >= b && (r == a || r == b)
  {
    if a >= b then a else b
  }

  /** The index `firstUpdated` keeps once `slideCount` slides are discovered:
      an index past the end moves down to the last slide (to 0 when there is
      none); any other index, even a negative one, is kept. */
  function ClampIndex(index: int, slideCount: nat): (r: int)
    ensures index < slideCount ==> r == index
    ensures index >= slideCount && slideCount >= 1 ==> r == slideCount - 1
    ensures index >= slideCount && slideCount == 0 ==> r == 0
    ensures r <= index
    ensures 0 <= index ==> 0 <= r && (slideCount >= 1 ==> r < slideCount)
  {
    if index >= slideCount then Max(0, slideCount - 1) else index
  }

  /** Clamping twice is clamping once: a clamped index is a fixed point
      of the clamp. */
  lemma ClampIdempotent(index: int, slideCount: nat)
    ensures ClampIndex(ClampIndex(index, slideCount), slideCount) == ClampIndex(index, slideCount)
  {
  }

  /** The two wrap-around edges, for every slide count: from the last slide
      `nextSlide` goes to 0, and from 0 `prevSlide` goes to `slideCount - 1`,
      which is -1 when there are no slides. */
  lemma WrapAround(slideCount: int)
    ensures Next(slideCount - 1, slideCount) == 0
    ensures Prev(0, slideCount) == slideCount - 1
    ensures Prev(0, 0) == -1 && Next(0, 0) == 0
  {
  }

  /** On a valid index, `prevSlide` undoes `nextSlide`. */
  lemma PrevUndoesNext(index: int, slideCount: int)
    requires 0 <= index < slideCount
    ensures Prev(Next(index, slideCount), slideCount) == index
  {
  }

  /** On a valid index, `nextSlide` undoes `prevSlide`. */
  lemma NextUndoesPrev(index: int, slideCount: int)
    requires 0 <= index < slideCount
    ensures Next(Prev(index, slideCount), slideCount) == index
  {
  }

  /** The two navigation buttons (and arrow keys). */
  datatype Direction = Backward | Forward

  function Step(d: Direction, index: int, slideCount: int): (r: int)
  {
    match d
    case Backward => Prev(index, slideCount)
    case Forward => Next(index, slideCount)
  }

  /** The index after `k` successive steps in direction `d`. */
  function Steps(d: Direction, index: int, slideCount: int, k: nat): (r: int)
    decreases k
  {
    if k == 0 then index else Steps(d, Step(d, index, slideCount), slideCount, k - 1)
  }

  /** `a + b` steps are `a` steps followed by `b` steps. */
  lemma {:induction false} StepsCompose(d: Direction, index: int, slideCount: int, a: nat, b: nat)
    ensures Steps(d, index, slideCount, a + b) == Steps(d, Steps(d, index, slideCount, a), slideCount, b)
    decreases a
  {
    if a > 0 {
      StepsCompose(d, Step(d, index, slideCount), slideCount, a - 1, b);
    }
  }

  /** Forward steps that stay short of the last slide simply count up. */
  lemma {:induction false} ForwardRun(index: int, slideCount: int, k: nat)
    requires 0 <= index && index + k < slideCount
    ensures Steps(Forward, index, slideCount, k) == index + k
    decreases k
  {
    if k > 0 {
      ForwardRun(index + 1, slideCount, k - 1);
    }
  }

  /** Backward steps that stay at or above slide 0 simply count down. */
  lemma {:induction false} BackwardRun(index: int, slideCount: int, k: nat)
    requires k <= index < slideCount
    ensures Steps(Backward, index, slideCount, k) == index - k
    decreases k
  {
    if k > 0 {
      BackwardRun(index - 1, slideCount, k - 1);
    }
  }

  /** Every valid index stays valid under any number of steps either way. */
  lemma {:induction false} StepsInRange(d: Direction, index: int, slideCount: int, k: nat)
    requires 0 <= index < slideCount
    ensures 0 <= Steps(d, index, slideCount, k) < slideCount
    decreases k
  {
    if k > 0 {
      StepsInRange(d, Step(d, index, slideCount), slideCount, k - 1);
    }
  }

  /** `slideCount` successive `nextSlide` calls return to the starting slide. */
  lemma NextCycle(index: int, slideCount: int)
    requires 0 <= index < slideCount
    ensures Steps(Forward, index, slideCount, slideCount) == index
  {
    var toLast := slideCount - 1 - index;
    ForwardRun(index, slideCount, toLast);
    assert Steps(Forward, slideCount - 1, slideCount, 1) == 0;
    StepsCompose(Forward, index, slideCount, toLast, 1);
    ForwardRun(0, slideCount, index);
    StepsCompose(Forward, index, slideCount, toLast + 1, index);
  }

  /** `slideCount` successive `prevSlide` calls return to the starting slide. */
  lemma PrevCycle(index: int, slideCount: int)
    requires 0 <= index < slideCount
    ensures Steps(Backward, index, slideCount, slideCount) == index
  {
    var fromLast := slideCount - 1 - index;
    BackwardRun(index, slideCount, index);
    assert Steps(Backward, 0, slideCount, 1) == slideCount - 1;
    StepsCompose(Backward, index, slideCount, index, 1);
    BackwardRun(slideCount - 1, slideCount, fromLast);
    StepsCompose(Backward, index, slideCount, index + 1, fromLast);
  }
}
