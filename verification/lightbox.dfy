/**
 The image lightbox.

 Opening shows the overlay with the clicked element's `data-large` image;
 closing hides it and clears the image. Both do nothing when the overlay or
 its image element is missing from the page.
 */
module Lightbox {
  import opened Options

  /** The overlay's `open` class, its `aria-hidden` attribute and the image's `src`. */
  datatype Lightbox = Lightbox(open: bool, ariaHidden: string, src: string)

  /** Whether the overlay and the image element inside it exist. */
  datatype Dom = Dom(box: bool, img: bool)

  predicate Present(d: Dom)
  {
    d.box && d.img
  }

  /** `aria-hidden` tells assistive technology the opposite of `open`. */
  predicate Consistent(lb: Lightbox)
  {
    lb.ariaHidden == (if lb.open then "false" else "true")
  }

  function OpenBox(d: Dom, lb: Lightbox, src: string): (lb': Lightbox)
    ensures !Present(d) ==> lb' == lb
    ensures Present(d) ==> lb'.open && lb'.src == src && lb'.ariaHidden == "false"
    ensures Present(d) ==> Consistent(lb')
  {
    if !Present(d) then lb else Lightbox(true, "false", src)
  }

  function CloseBox(d: Dom, lb: Lightbox): (lb': Lightbox)
    ensures !Present(d) ==> lb' == lb
    ensures Present(d) ==> !lb'.open && lb'.src == "" && lb'.ariaHidden == "true"
    ensures Present(d) ==> Consistent(lb')
  {
    if !Present(d) then lb else Lightbox(false, "true", "")
  }

  /** A click on a `data-large` opener (the attribute's value, if it has
      one), a click on the overlay (on its backdrop or close button, or on
      something else inside it), or a key press. */
  datatype BoxEvent =
    | OpenerClick(dataLarge: Option<string>)
    | OverlayClick(closes: bool)
    | KeyDown(key: string)

  function Handle(d: Dom, lb: Lightbox, e: BoxEvent): (lb': Lightbox)
    ensures !Present(d) ==> lb' == lb
    ensures Consistent(lb) ==> Consistent(lb')
  {
    match e
    case OpenerClick(a) =>
      // An absent or empty attribute is falsy, so nothing opens.
      if a.Some? && a.value != "" then OpenBox(d, lb, a.value) else lb
    case OverlayClick(closes) => if closes then CloseBox(d, lb) else lb
    case KeyDown(key) => if key == "Escape" then CloseBox(d, lb) else lb
  }

  /** Closing erases every trace of an earlier open. */
  lemma CloseAfterOpen(d: Dom, lb: Lightbox, src: string)
    ensures CloseBox(d, OpenBox(d, lb, src)) == CloseBox(d, lb)
  {
  }

  /** Closing twice is closing once. */
  lemma CloseIdempotent(d: Dom, lb: Lightbox)
    ensures CloseBox(d, CloseBox(d, lb)) == CloseBox(d, lb)
  {
  }

  /** Opening again with another image just swaps the image. */
  lemma ReopenSwapsImage(d: Dom, lb: Lightbox, a: string, b: string)
    ensures OpenBox(d, OpenBox(d, lb, a), b) == OpenBox(d, lb, b)
  {
  }

  /** An opener with a non-empty `data-large` opens the overlay on that
      image; one without it does nothing. */
  lemma OpenerClickOpens(d: Dom, lb: Lightbox, a: Option<string>)
    requires Present(d)
    ensures a.Some? && a.value != "" ==> Handle(d, lb, OpenerClick(a)) == Lightbox(true, "false", a.value)
    ensures !(a.Some? && a.value != "") ==> Handle(d, lb, OpenerClick(a)) == lb
  {
  }

  function HandleAll(d: Dom, lb: Lightbox, es: seq<BoxEvent>): Lightbox
    decreases |es|
  {
    if es == [] then lb else HandleAll(d, Handle(d, lb, es[0]), es[1..])
  }

  /** With the overlay or its image missing, no sequence of events changes anything. */
  lemma {:induction false} AbsentInert(d: Dom, lb: Lightbox, es: seq<BoxEvent>)
    requires !Present(d)
    ensures HandleAll(d, lb, es) == lb
    decreases |es|
  {
    if es != [] {
      AbsentInert(d, Handle(d, lb, es[0]), es[1..]);
    }
  }

  /** A consistent overlay stays consistent whatever happens. */
  lemma {:induction false} ConsistentForever(d: Dom, lb: Lightbox, es: seq<BoxEvent>)
    requires Consistent(lb)
    ensures Consistent(HandleAll(d, lb, es))
    decreases |es|
  {
    if es != [] {
      ConsistentForever(d, Handle(d, lb, es[0]), es[1..]);
    }
  }
}
