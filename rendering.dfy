/** What `render` and `renderSlide` make of `(slides, index)`: one panel and
    one indicator per slide, in order, with the active marker on position
    `index` only. The markup and styling themselves are not modelled. */
module Rendering {

  datatype Option<T> = None | Some(value: T)

  /** A discovered `play-list-slide` child: its `top-heading` and
      `sub-heading` attributes (None when absent) and its inner markup. */
  datatype Slide = Slide(topHeading: Option<string>, subHeading: Option<string>, body: string)

  /** A rendered `slide-panel`; only the active one is displayed. */
  datatype Panel = Panel(active: bool, topHeading: Option<string>, subHeading: Option<string>, body: string)

  /** A rendered `slide-indicator`; clicking it calls `goToSlide(target)`. */
  datatype Indicator = Indicator(active: bool, target: int)

  datatype View = View(panels: seq<Panel>, indicators: seq<Indicator>)

  /** A heading attribute is shown only when it is truthy in JavaScript:
      an absent attribute and an empty one are both left out. */
  function Shown(attr: Option<string>): (r: Option<string>)
    ensures r.Some? <==> attr.Some? && attr.value != ""
    ensures r.Some? ==> r == attr
  {
    if attr.Some? && attr.value != "" then attr else None
  }

  /** `renderSlide(slide, i)` while the component is at `index`. */
  function RenderSlide(slide: Slide, i: int, index: int): (p: Panel)
    ensures p.active <==> i == index
    ensures p.topHeading == Shown(slide.topHeading) && p.subHeading == Shown(slide.subHeading)
    ensures p.body == slide.body
  {
    Panel(i == index, Shown(slide.topHeading), Shown(slide.subHeading), slide.body)
  }

  /** The panels of the slide viewport, `slides.map(renderSlide)`. */
  function RenderPanels(slides: seq<Slide>, index: int): (ps: seq<Panel>)
    ensures |ps| == |slides|
    ensures forall i :: 0 <= i < |ps| ==> (ps[i].active <==> i == index)
    ensures forall i :: 0 <= i < |ps| ==> ps[i].body == slides[i].body
    ensures forall i :: 0 <= i < |ps| ==>
      ps[i].topHeading == Shown(slides[i].topHeading) && ps[i].subHeading == Shown(slides[i].subHeading)
  {
    seq(|slides|, i requires 0 <= i < |slides| => RenderSlide(slides[i], i, index))
  }

  /** The indicator dots of the footer, one per slide; dot `i` jumps to `i`. */
  function RenderIndicators(slides: seq<Slide>, index: int): (ds: seq<Indicator>)
    ensures |ds| == |slides|
    ensures forall i :: 0 <= i < |ds| ==> (ds[i].active <==> i == index) && ds[i].target == i
  {
    seq(|slides|, i requires 0 <= i < |slides| => Indicator(i == index, i))
  }

  /** `render`: a pure projection of the slides and the current index,
      the viewport's panels beside the footer's indicator dots. */
  function Render(slides: seq<Slide>, index: int): (v: View)
    ensures v.panels == RenderPanels(slides, index) && v.indicators == RenderIndicators(slides, index)
    ensures |v.panels| == |v.indicators| == |slides|
    ensures forall i :: 0 <= i < |slides| ==> v.indicators[i].active == v.panels[i].active
  {
    View(RenderPanels(slides, index), RenderIndicators(slides, index))
  }

  /** The number of panels that carry the active marker. */
  function CountActive(ps: seq<Panel>): (n: nat)
  {
    if |ps| == 0 then 0 else CountActive(ps[..|ps| - 1]) + (if ps[|ps| - 1].active then 1 else 0)
  }

  /** Panels marked exactly at position `index` hold one active panel when
      `index` is a position of theirs and none otherwise. */
  lemma {:induction false} CountMarkedAt(ps: seq<Panel>, index: int)
    requires forall i :: 0 <= i < |ps| ==> (ps[i].active <==> i == index)
    ensures CountActive(ps) == if 0 <= index < |ps| then 1 else 0
  {
    if |ps| > 0 {
      var front := ps[..|ps| - 1];
      assert forall i :: 0 <= i < |front| ==> front[i] == ps[i];
      CountMarkedAt(front, index);
    }
  }

  /** Exactly one panel is active when `index` is a valid slide position,
      and it is panel `index`; otherwise no panel is active. */
  lemma ExactlyOneActivePanel(slides: seq<Slide>, index: int)
    ensures CountActive(Render(slides, index).panels) == if 0 <= index < |slides| then 1 else 0
    ensures 0 <= index < |slides| ==> Render(slides, index).panels[index].active
  {
    CountMarkedAt(Render(slides, index).panels, index);
  }

  /** Indicator `i` is active exactly when panel `i` is. */
  lemma IndicatorsFollowPanels(slides: seq<Slide>, index: int)
    ensures |Render(slides, index).indicators| == |Render(slides, index).panels|
    ensures forall i :: 0 <= i < |slides| ==>
      Render(slides, index).indicators[i].active == Render(slides, index).panels[i].active
  {
  }
}
