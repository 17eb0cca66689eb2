/** The state machine of the `play-list-project` element: the discovered
    slides, the current index and the `slide-changed` notifications. */
module PlayList {
  import opened Navigation
  import opened Rendering

  /** The payload of a `slide-changed` event, `detail.index`. */
  datatype SlideChanged = SlideChanged(index: int)

  class PlayListProject {
    var title: string
    var index: int
    var slides: seq<Slide>
    var slideCount: int
    /** The `slide-changed` events dispatched so far, oldest first. */
    var events: seq<SlideChanged>

    /** `slideCount` is the number of discovered slides. */
    predicate Valid()
      reads this
    {
      slideCount == |slides|
    }

    /** `index` names one of the slides. */
    predicate InRange()
      reads this
    {
      0 <= index < slideCount
    }

    constructor ()
      ensures Valid()
      ensures title == "" && index == 0 && slides == [] && slideCount == 0 && events == []
    {
      title := "";
      index := 0;
      slides := [];
      slideCount := 0;
      events := [];
    }

    /** `firstUpdated`, given the slides found among the element's children. */
    method FirstUpdated(discovered: seq<Slide>)
      modifies this`slides, this`slideCount, this`index
      ensures Valid()
      ensures slides == discovered && slideCount == |discovered|
      ensures index == ClampIndex(old(index), |discovered|)
      ensures 0 <= old(index) && |discovered| >= 1 ==> InRange()
      ensures events == old(events)
    {
      slides := discovered;
      slideCount := |slides|;
      if index >= slideCount {
        index := Max(0, slideCount - 1);
      }
    }

    method PrevSlide()
      modifies this`index
      ensures index == Prev(old(index), slideCount)
      ensures old(Valid()) ==> Valid()
      ensures old(InRange()) ==> InRange()
      ensures slides == old(slides) && slideCount == old(slideCount) && events == old(events)
    {
      index := if index > 0 then index - 1 else slideCount - 1;
    }

    method NextSlide()
      modifies this`index
      ensures index == Next(old(index), slideCount)
      ensures old(Valid()) ==> Valid()
      ensures old(InRange()) ==> InRange()
      ensures slides == old(slides) && slideCount == old(slideCount) && events == old(events)
    {
      index := if index < slideCount - 1 then index + 1 else 0;
    }

    /** `handleKeyDown`, given the pressed key's name. */
    method HandleKeyDown(key: string)
      modifies this`index
      ensures key == "ArrowLeft" ==> index == Prev(old(index), slideCount)
      ensures key == "ArrowRight" ==> index == Next(old(index), slideCount)
      ensures key != "ArrowLeft" && key != "ArrowRight" ==> index == old(index)
      ensures old(Valid()) ==> Valid()
      ensures old(InRange()) ==> InRange()
      ensures slides == old(slides) && slideCount == old(slideCount) && events == old(events)
    {
      if key == "ArrowLeft" {
        PrevSlide();
      } else if key == "ArrowRight" {
        NextSlide();
      }
    }

    /** `goToSlide(i)`: no range check, one notification. */
    method GoToSlide(i: int)
      modifies this`index, this`events
      ensures index == i
      ensures events == old(events) + [SlideChanged(i)]
      ensures old(Valid()) ==> Valid()
      ensures slides == old(slides) && slideCount == old(slideCount)
    {
      index := i;
      events := events + [SlideChanged(i)];
    }
  }

  /** On a mounted element whose index names a slide, exactly one of the
      `slideCount` panels is active, and it is panel `index`. */
  lemma OneActivePanel(p: PlayListProject)
    requires p.Valid() && p.InRange()
    ensures CountActive(Render(p.slides, p.index).panels) == 1
    ensures Render(p.slides, p.index).panels[p.index].active
  {
    ExactlyOneActivePanel(p.slides, p.index);
  }

  /** Three slides headed A, B and C: a full forward cycle and back. */
  method ThreeSlideScenario()
  {
    var p := new PlayListProject();
    p.FirstUpdated([Slide(Some("A"), None, "a"), Slide(Some("B"), None, "b"), Slide(Some("C"), None, "c")]);
    assert p.index == 0;
    assert Render(p.slides, p.index).panels[0].topHeading == Some("A");
    p.NextSlide();
    assert p.index == 1;
    p.NextSlide();
    p.NextSlide();
    assert p.index == 0;
    p.HandleKeyDown("ArrowLeft");
    assert p.index == 2;
    p.HandleKeyDown("Enter");
    assert p.index == 2 && p.events == [];
  }

  /** An `index` attribute of 5 over two slides is clamped to the last one;
      `goToSlide(2)` is then taken as given and reported once. */
  method ClampAndJumpScenario()
  {
    var p := new PlayListProject();
    p.index := 5;
    p.FirstUpdated([Slide(None, None, "x"), Slide(None, Some("y"), "y")]);
    assert p.index == 1;
    p.GoToSlide(2);
    assert p.index == 2 && !p.InRange();
    assert p.events == [SlideChanged(2)];
    ExactlyOneActivePanel(p.slides, p.index);
    assert CountActive(Render(p.slides, p.index).panels) == 0;
  }

  /** With no slides, `prevSlide` from 0 lands on -1 and `nextSlide` on 0. */
  method EmptyScenario()
  {
    var p := new PlayListProject();
    p.FirstUpdated([]);
    p.PrevSlide();
    assert p.index == -1;
    p.NextSlide();
    assert p.index == 0;
  }
}
