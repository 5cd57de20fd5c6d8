/**
 * The off-canvas panels: a button whose `n_clicks` starts at 0 and an
 * off-canvas that starts closed. The UI runtime runs `toggle_offcanvas`
 * once when the page loads (with `n_clicks == 0`) and again after every
 * press, with `n_clicks` incremented. The main menu and the "Overall" panel
 * are driven by the same code.
 *
 * The off-canvas keeps the component library's defaults: a close button,
 * closing on a click on the backdrop and closing on the Escape key. Each of
 * these sets `is_open` to false and leaves the button's `n_clicks` alone.
 */
module Menu {

  /** The button's click counter and whether the off-canvas is open. */
  datatype Offcanvas = Offcanvas(nClicks: nat, isOpen: bool)

  /** Both panels start with `n_clicks=0` and `is_open=False`. */
  const InitialOffcanvas := Offcanvas(0, false)

  /** `toggle_offcanvas(n1, is_open)`: a truthy `n1` flips the state. */
  function ToggleOffcanvas(n1: nat, isOpen: bool): (r: bool)
    ensures n1 == 0 ==> r == isOpen
    ensures n1 != 0 ==> r == !isOpen
  {
    if n1 != 0 then !isOpen else isOpen
  }

  /** Two presses bring the off-canvas back to where it was. */
  lemma TwoTogglesRestore(n1: nat, n2: nat, isOpen: bool)
    requires n1 != 0 && n2 != 0
    ensures ToggleOffcanvas(n2, ToggleOffcanvas(n1, isOpen)) == isOpen
  {
  }

  /** The runtime's reaction to one press of the button: the panel flips. */
  function Press(o: Offcanvas): (r: Offcanvas)
    ensures r.nClicks == o.nClicks + 1
    ensures r.isOpen == !o.isOpen
  {
    Offcanvas(o.nClicks + 1, ToggleOffcanvas(o.nClicks + 1, o.isOpen))
  }

  /** The state after the initial call and `presses` presses. */
  function AfterPresses(presses: nat): Offcanvas
  {
    if presses == 0 then
      Offcanvas(InitialOffcanvas.nClicks, ToggleOffcanvas(InitialOffcanvas.nClicks, InitialOffcanvas.isOpen))
    else Press(AfterPresses(presses - 1))
  }

  /**
   * The initial call leaves the off-canvas closed, and after that it is
   * open exactly after an odd number of presses.
   */
  lemma {:induction false} OpenAfterOddPresses(presses: nat)
    ensures AfterPresses(presses) == Offcanvas(presses, presses % 2 == 1)
  {
    if presses > 0 {
      OpenAfterOddPresses(presses - 1);
    }
  }

  /**
   * What happens to a panel: a press of its button, or a dismissal by the
   * close button, a backdrop click or the Escape key.
   */
  datatype Event = ButtonPress | Dismiss

  /** One event: a press flips the panel, a dismissal closes it. */
  function Step(o: Offcanvas, e: Event): (r: Offcanvas)
    ensures r.nClicks == if e == ButtonPress then o.nClicks + 1 else o.nClicks
    ensures r.isOpen == (e == ButtonPress && !o.isOpen)
  {
    match e
    case ButtonPress => Press(o)
    case Dismiss => Offcanvas(o.nClicks, false)
  }

  /** The state after the initial call and the given events, oldest first. */
  function Run(events: seq<Event>): Offcanvas
  {
    if events == [] then AfterPresses(0)
    else Step(Run(events[..|events| - 1]), events[|events| - 1])
  }

  /** The presses since the last dismissal (all of them when there was none). */
  function PressesSinceDismiss(events: seq<Event>): (r: nat)
    ensures r <= |events|
    ensures Dismiss !in events ==> r == |events|
  {
    if events == [] || events[|events| - 1] == Dismiss then 0
    else
      assert events == events[..|events| - 1] + [events[|events| - 1]];
      PressesSinceDismiss(events[..|events| - 1]) + 1
  }

  /**
   * Whatever the events, the counter is the number of presses, and the panel
   * is open exactly when an odd number of presses followed the last
   * dismissal.
   */
  lemma {:induction false} RunState(events: seq<Event>)
    ensures Run(events) == Offcanvas(multiset(events)[ButtonPress], PressesSinceDismiss(events) % 2 == 1)
  {
    if events == [] {
      OpenAfterOddPresses(0);
    } else {
      var init := events[..|events| - 1];
      RunState(init);
      assert events == init + [events[|events| - 1]];
    }
  }

  /** A dismissed panel opens on the next press, whatever its history. */
  lemma DismissThenPress(events: seq<Event>)
    ensures Run(events + [Dismiss]).isOpen == false
    ensures Run(events + [Dismiss, ButtonPress]).isOpen
  {
    assert (events + [Dismiss])[..|events|] == events;
    assert (events + [Dismiss, ButtonPress])[..|events| + 1] == events + [Dismiss];
  }

  /** Without dismissals, the panel follows the parity of the presses. */
  lemma OnlyPresses(events: seq<Event>)
    requires Dismiss !in events
    ensures Run(events) == AfterPresses(|events|)
  {
    RunState(events);
    OpenAfterOddPresses(|events|);
    PressesCount(events);
  }

  /** Without dismissals, every event is a press. */
  lemma {:induction false} PressesCount(events: seq<Event>)
    requires Dismiss !in events
    ensures multiset(events)[ButtonPress] == |events|
  {
    if events != [] {
      assert events == [events[0]] + events[1..];
      assert events[0] == ButtonPress;
      assert multiset(events) == multiset{ButtonPress} + multiset(events[1..]);
      PressesCount(events[1..]);
    }
  }
}
