/**
  The "about" disclosure: one click flips the panel's `visible` class and the
  button's `active` class together (the style sheet rotates the "+" glyph
  by 45 degrees while `active` is set).
 */
module About {

  /** The glyph the script writes once at start-up. */
  const CLOSED_GLYPH: string := "+"

  datatype Disclosure = Disclosure(sectionVisible: bool, toggleActive: bool)

  /** Closed: neither class set. */
  const CLOSED: Disclosure := Disclosure(false, false)

  function Toggle(d: Disclosure): (r: Disclosure)
    ensures r.sectionVisible != d.sectionVisible && r.toggleActive != d.toggleActive
  {
    Disclosure(!d.sectionVisible, !d.toggleActive)
  }

  /** The state after `n` clicks. */
  function Clicks(d: Disclosure, n: nat): Disclosure
  {
    if n == 0 then d else Toggle(Clicks(d, n - 1))
  }

  /** Panel and button always agree, and the panel is open exactly after an odd number of clicks. */
  lemma {:induction false} ClicksFromClosed(n: nat)
    ensures Clicks(CLOSED, n).sectionVisible == Clicks(CLOSED, n).toggleActive
    ensures Clicks(CLOSED, n).sectionVisible <==> n % 2 == 1
  {
    if n > 0 {
      ClicksFromClosed(n - 1);
    }
  }

  lemma ClickTwiceRestores(d: Disclosure)
    ensures Toggle(Toggle(d)) == d
  {
  }

  class AboutToggle {
    var sectionVisible: bool
    var toggleActive: bool
    var glyph: string

    function State(): Disclosure
      reads this
    {
      Disclosure(sectionVisible, toggleActive)
    }

    /** Start-up: closed, showing "+". */
    constructor ()
      ensures State() == CLOSED && glyph == CLOSED_GLYPH
    {
      sectionVisible, toggleActive := false, false;
      glyph := CLOSED_GLYPH;
    }

    method OnClick()
      modifies this
      ensures State() == Toggle(old(State())) && glyph == old(glyph)
    {
      sectionVisible := !sectionVisible;
      toggleActive := !toggleActive;
    }
  }
}
