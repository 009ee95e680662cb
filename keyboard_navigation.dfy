/**
 The keyboard-navigation demo: a group of three buttons of which at most one
 is the active one. The state is the index of the active button, or none;
 each button's `aria-pressed` and `aria-current` attributes and the
 "Current selection" line are read off that state.
 */
module KeyboardNavigation {
  import opened Text

  /** The buttons, in the order they are rendered. */
  const Items := ["First item", "Second item", "Third item"]

  const NoSelection := "None"

  class ItemGroup {
    /** `activeIndex`: `null` until a button is clicked. */
    var activeIndex: Option<nat>

    /** The active index, when there is one, names one of the buttons. */
    ghost predicate Valid()
      reads this
    {
      activeIndex.Some? ==> activeIndex.value < |Items|
    }

    /** Nothing is selected at first. */
    constructor ()
      ensures Valid() && activeIndex == None
      ensures SelectionText() == NoSelection
      ensures forall i :: 0 <= i < |Items| ==> !AriaPressed(i)
    {
      activeIndex := None;
    }

    /**
     The click handler of button `index`: that button becomes the active one,
     whatever was active before; clicking the active button again keeps it.
     */
    method Click(index: nat)
      requires Valid() && index < |Items|
      modifies this
      ensures Valid() && activeIndex == Some(index)
      ensures AriaPressed(index) && SelectionText() == "Item " + DecimalString(index + 1)
    {
      activeIndex := Some(index);
    }

    /** `aria-pressed` of button `index`. */
    function AriaPressed(index: nat): bool
      reads this
    {
      activeIndex == Some(index)
    }

    /** `aria-current` of button `index`. */
    function AriaCurrent(index: nat): string
      reads this
    {
      if activeIndex == Some(index) then "true" else "false"
    }

    /** The text after "Current selection: ". */
    function SelectionText(): string
      reads this
    {
      match activeIndex
      case None => NoSelection
      case Some(k) => "Item " + DecimalString(k + 1)
    }

    /** The buttons currently rendered as pressed. */
    function PressedItems(): set<nat>
      reads this
    {
      set i: nat | i < |Items| && AriaPressed(i)
    }

    /**
     At most one button is pressed: none before the first click, and after
     it exactly the active one.
     */
    lemma AtMostOnePressed()
      requires Valid()
      ensures activeIndex.None? ==> PressedItems() == {}
      ensures activeIndex.Some? ==> PressedItems() == {activeIndex.value}
      ensures |PressedItems()| <= 1
    {
      if activeIndex.Some? {
        assert activeIndex.value in PressedItems();
      }
    }

    /**
     `aria-current` says "true" exactly for the pressed button and "false"
     for every other one.
     */
    lemma CurrentAgreesWithPressed(index: nat)
      ensures AriaCurrent(index) == (if AriaPressed(index) then "true" else "false")
      ensures AriaCurrent(index) == "true" <==> AriaPressed(index)
    {
    }

    /**
     With button `k` active the selection line names it by its ordinal `k+1`,
     written as one digit "1", "2" or "3"; without one it reads "None".
     */
    lemma SelectionNamesActiveItem()
      requires Valid()
      ensures activeIndex.None? ==> SelectionText() == NoSelection
      ensures activeIndex.Some? ==> SelectionText() == "Item " + [DigitChar(activeIndex.value + 1)]
      ensures activeIndex.Some? ==> DecimalValue(SelectionText()[5..]) == activeIndex.value + 1
    {
      if activeIndex.Some? {
        var k := activeIndex.value;
        assert SelectionText()[5..] == DecimalString(k + 1);
        DecimalRoundTrip(k + 1);
      }
    }
  }
}
