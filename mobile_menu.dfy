/** The mobile navigation drawer (`initMobileMenu`).
    The flag `isOpen` is a field; the `active` classes of the menu and its button, the
    three hamburger bars and the body's `overflow: hidden` are booleans standing for the
    classes and styles `toggleMenu` writes. */
module MobileMenu {

  /** Where a click lands, as far as the menu's listeners can tell.
      `Button` is the menu button or anything inside it; `MenuLink` is one of the
      links in the menu (or anything inside one); `InsideMenu` is any other point of
      the menu; `Elsewhere` is outside both the menu and the button. */
  datatype ClickTarget = Button | MenuLink | InsideMenu | Elsewhere

  /** `mobileMenu.contains(e.target)` */
  predicate InMenu(t: ClickTarget)
  {
    t == MenuLink || t == InsideMenu
  }

  /** `menuBtn.contains(e.target)` */
  predicate InButton(t: ClickTarget)
  {
    t == Button
  }

  /** The flag after the listener on the clicked element itself (button or link), if any. */
  function OnElement(open: bool, t: ClickTarget): bool
  {
    match t
    case Button => !open
    case MenuLink => false
    case _ => open
  }

  /** The flag after the document's click listener, which the click reaches by bubbling. */
  function OnDocument(open: bool, t: ClickTarget): (r: bool)
    ensures InMenu(t) || InButton(t) ==> r == open
    ensures !InMenu(t) && !InButton(t) ==> !r
  {
    if open && !InMenu(t) && !InButton(t) then false else open
  }

  /** One click: the element's own listener, then the document's. */
  function AfterClick(open: bool, t: ClickTarget): (r: bool)
    ensures t == Button ==> r == !open
    ensures t == MenuLink || t == Elsewhere ==> !r
    ensures t == InsideMenu ==> r == open
  {
    OnDocument(OnElement(open, t), t)
  }

  /** Closing clicks are idempotent: a second identical click changes nothing. */
  lemma ClosingClickIdempotent(open: bool, t: ClickTarget)
    requires t == MenuLink || t == Elsewhere
    ensures AfterClick(AfterClick(open, t), t) == AfterClick(open, t) == false
  {
  }

  /** The flag after a sequence of clicks, in order. */
  function Replay(open: bool, ts: seq<ClickTarget>): bool
    decreases |ts|
  {
    if ts == [] then open else Replay(AfterClick(open, ts[0]), ts[1..])
  }

  predicate Closes(t: ClickTarget)
  {
    t == MenuLink || t == Elsewhere
  }

  /** Whether `ts` holds a closing click (a link, or a point outside menu and button). */
  predicate HasClosing(ts: seq<ClickTarget>)
    decreases |ts|
  {
    ts != [] && (Closes(ts[|ts| - 1]) || HasClosing(ts[..|ts| - 1]))
  }

  /** Number of button clicks after the last closing click of `ts` (all of them if none). */
  function ButtonsSinceClose(ts: seq<ClickTarget>): nat
    decreases |ts|
  {
    if ts == [] then 0
    else if Closes(ts[|ts| - 1]) then 0
    else if ts[|ts| - 1] == Button then ButtonsSinceClose(ts[..|ts| - 1]) + 1
    else ButtonsSinceClose(ts[..|ts| - 1])
  }

  lemma {:induction false} ReplayAppend(open: bool, ts: seq<ClickTarget>, t: ClickTarget)
    ensures Replay(open, ts + [t]) == AfterClick(Replay(open, ts), t)
    decreases |ts|
  {
    if ts == [] {
      assert [] + [t] == [t];
    } else {
      assert (ts + [t])[1..] == ts[1..] + [t];
      ReplayAppend(AfterClick(open, ts[0]), ts[1..], t);
    }
  }

  /** The menu is a parity machine reset by closing clicks: after any sequence of clicks
      it is open exactly when an odd number of button clicks followed the last closing
      click, or, with no closing click at all, when the parity of button clicks flipped
      the starting state. */
  lemma {:induction false} ReplayIsParity(open: bool, ts: seq<ClickTarget>)
    ensures HasClosing(ts) ==> (Replay(open, ts) <==> ButtonsSinceClose(ts) % 2 == 1)
    ensures !HasClosing(ts) ==> (Replay(open, ts) <==> (open != (ButtonsSinceClose(ts) % 2 == 1)))
    decreases |ts|
  {
    if ts != [] {
      var init, t := ts[..|ts| - 1], ts[|ts| - 1];
      assert ts == init + [t];
      ReplayAppend(open, init, t);
      ReplayIsParity(open, init);
      assert HasClosing(ts) == (Closes(t) || HasClosing(init));
      if Closes(t) {
        assert !Replay(open, ts) && ButtonsSinceClose(ts) == 0;
      } else if t == Button {
        assert ButtonsSinceClose(ts) == ButtonsSinceClose(init) + 1;
      } else {
        assert ButtonsSinceClose(ts) == ButtonsSinceClose(init);
      }
    }
  }

  /** The drawer, its button, and the body as the menu's listeners see them. */
  class Menu {
    var isOpen: bool
    /** `mobileMenu` carries the `active` class. */
    var menuActive: bool
    /** `menuBtn` carries the `active` class. */
    var buttonActive: bool
    /** The hamburger is drawn as an X: first and third bars rotated, middle bar at opacity 0. */
    var topBarRotated: bool
    var middleBarHidden: bool
    var bottomBarRotated: bool
    /** The menu's own last write to `document.body.style.overflow` was `hidden` rather
        than empty. The loader's writes to the same style are not part of this model. */
    var bodyScrollLocked: bool

    /** The visual state matches the flag. */
    predicate Shown()
      reads this
    {
      menuActive == isOpen && buttonActive == isOpen &&
      topBarRotated == isOpen && middleBarHidden == isOpen && bottomBarRotated == isOpen &&
      bodyScrollLocked == isOpen
    }

    /** The page as loaded: the menu closed and drawn closed. */
    constructor ()
      ensures !isOpen && Shown()
    {
      isOpen := false;
      menuActive, buttonActive := false, false;
      topBarRotated, middleBarHidden, bottomBarRotated := false, false, false;
      bodyScrollLocked := false;
    }

    /** `toggleMenu`: draws the current flag; despite its name it does not flip it. */
    method ToggleMenu()
      modifies this
      ensures isOpen == old(isOpen) && Shown()
    {
      menuActive := isOpen;
      buttonActive := isOpen;
      if isOpen {
        topBarRotated, middleBarHidden, bottomBarRotated := true, true, true;
        bodyScrollLocked := true;
      } else {
        topBarRotated, middleBarHidden, bottomBarRotated := false, false, false;
        bodyScrollLocked := false;
      }
    }

    /** The button's click listener. */
    method ButtonClicked()
      modifies this
      ensures isOpen == !old(isOpen) && Shown()
    {
      isOpen := !isOpen;
      ToggleMenu();
    }

    /** A menu link's click listener. */
    method LinkClicked()
      modifies this
      ensures !isOpen && Shown()
    {
      isOpen := false;
      ToggleMenu();
    }

    /** The document's click listener. */
    method DocumentClicked(t: ClickTarget)
      requires Shown()
      modifies this
      ensures isOpen == OnDocument(old(isOpen), t) && Shown()
      ensures !(old(isOpen) && !InMenu(t) && !InButton(t)) ==> unchanged(this)
    {
      if isOpen && !InMenu(t) && !InButton(t) {
        isOpen := false;
        ToggleMenu();
      }
    }

    /** A click on `t`: the element's own listener runs, then the event bubbles to the document. */
    method Click(t: ClickTarget)
      requires Shown()
      modifies this
      ensures isOpen == AfterClick(old(isOpen), t) && Shown()
    {
      match t {
        case Button => ButtonClicked();
        case MenuLink => LinkClicked();
        case _ =>
      }
      DocumentClicked(t);
    }
  }
}
