/**
 The disclosure widget: one button that shows or hides a block of content.
 Its whole state is whether the content is expanded; the button's
 `aria-expanded` attribute, its label and the content's `hidden` flag and
 opacity class are all read off that state.
 */
module ToggleContent {

  const HideLabel := "Hide Content"
  const ShowLabel := "Show Content"
  const VisibleClass := "opacity-100"
  const InvisibleClass := "opacity-0"

  class Disclosure {
    var isExpanded: bool

    /** The content starts collapsed. */
    constructor ()
      ensures !isExpanded
      ensures Hidden() && ButtonLabel() == ShowLabel && !AriaExpanded()
    {
      isExpanded := false;
    }

    /** `toggleContent`: the state flips. */
    method Toggle()
      modifies this
      ensures isExpanded == !old(isExpanded)
      ensures AriaExpanded() == !old(AriaExpanded()) && Hidden() == !old(Hidden())
    {
      isExpanded := !isExpanded;
    }

    /** The button's `aria-expanded` attribute. */
    function AriaExpanded(): bool
      reads this
    {
      isExpanded
    }

    /** The button's text. */
    function ButtonLabel(): string
      reads this
    {
      if isExpanded then HideLabel else ShowLabel
    }

    /** The content's `hidden` attribute. */
    function Hidden(): bool
      reads this
    {
      !isExpanded
    }

    /** The content's opacity class. */
    function OpacityClass(): string
      reads this
    {
      if isExpanded then VisibleClass else InvisibleClass
    }

    /**
     What is announced agrees with what is shown: `aria-expanded` is true
     exactly when the content is not hidden, exactly when the button offers
     to hide it, and exactly when the content is fully opaque.
     */
    lemma AnnouncedMatchesShown()
      ensures AriaExpanded() <==> !Hidden()
      ensures ButtonLabel() == HideLabel <==> !Hidden()
      ensures ButtonLabel() == ShowLabel <==> Hidden()
      ensures OpacityClass() == VisibleClass <==> !Hidden()
    {
    }
  }

  /** Two toggles bring the widget back to where it was. */
  method ToggleTwice(d: Disclosure)
    modifies d
    ensures d.isExpanded == old(d.isExpanded)
    ensures d.ButtonLabel() == old(d.ButtonLabel()) && d.Hidden() == old(d.Hidden())
  {
    d.Toggle();
    d.Toggle();
  }
}
