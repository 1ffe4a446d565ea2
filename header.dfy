/** The header scroll responder (`initHeader`).
    The header element's `scrolled` class and its `translateY(-100%)` transform
    are modelled as two booleans; the closure variable `lastScroll` is a field. */
module Header {

  /** Past this many pixels the header carries the `scrolled` class. */
  const ScrolledThreshold: int := 50
  /** Past this many pixels a downward scroll hides the header. */
  const HideThreshold: int := 200

  /** The visible state of the header plus the handler's memory of the last position. */
  datatype HeaderState = HeaderState(lastScroll: int, scrolled: bool, hidden: bool)

  /** The state before the first scroll event: `lastScroll = 0`, no class, no transform. */
  const Initial: HeaderState := HeaderState(0, false, false)

  /** One run of the scroll listener at position `p`. */
  function Step(s: HeaderState, p: int): HeaderState
  {
    HeaderState(p, p > ScrolledThreshold, p > s.lastScroll && p > HideThreshold)
  }

  /** The listener run on each position of `ps`, in order. */
  function Run(s: HeaderState, ps: seq<int>): HeaderState
    decreases |ps|
  {
    if ps == [] then s else Run(Step(s, ps[0]), ps[1..])
  }

  /** The position the listener compares the last one of `ps` against. */
  function Previous(s: HeaderState, ps: seq<int>): int
    requires |ps| > 0
  {
    if |ps| == 1 then s.lastScroll else ps[|ps| - 2]
  }

  /** After any non-empty sequence of scroll events the header state is decided by
      the last two positions alone: `scrolled` iff the last one is past 50, hidden iff
      the last step went down the page past 200, and `lastScroll` is the last position. */
  lemma {:induction false} RunDecidedByLastStep(s: HeaderState, ps: seq<int>)
    requires |ps| > 0
    ensures Run(s, ps).lastScroll == ps[|ps| - 1]
    ensures Run(s, ps).scrolled <==> ps[|ps| - 1] > 50
    ensures Run(s, ps).hidden <==> ps[|ps| - 1] > Previous(s, ps) && ps[|ps| - 1] > 200
    decreases |ps|
  {
    if |ps| > 1 {
      RunDecidedByLastStep(Step(s, ps[0]), ps[1..]);
      assert ps[1..][|ps| - 2] == ps[|ps| - 1];
      if |ps| > 2 {
        assert ps[1..][|ps| - 3] == ps[|ps| - 2];
      }
    }
  }

  /** Any step that does not go further down the page than the position last seen, of
      whatever size, shows the header again, whatever came before (the first event of a
      run included, compared against the starting `lastScroll`). */
  lemma {:induction false} UpwardStepShows(s: HeaderState, ps: seq<int>, p: int)
    requires p <= Run(s, ps).lastScroll
    ensures !Run(s, ps + [p]).hidden
  {
    RunAppend(s, ps, p);
  }

  /** The header is hidden only right after a strictly downward step that ends past 200. */
  lemma {:induction false} HiddenOnlyAfterDownwardStep(s: HeaderState, ps: seq<int>, p: int)
    requires Run(s, ps + [p]).hidden
    ensures p > 200
    ensures p > Run(s, ps).lastScroll
  {
    RunAppend(s, ps, p);
  }

  /** Running one more event is one more step. */
  lemma {:induction false} RunAppend(s: HeaderState, ps: seq<int>, p: int)
    ensures Run(s, ps + [p]) == Step(Run(s, ps), p)
    decreases |ps|
  {
    if ps == [] {
      assert [] + [p] == [p];
    } else {
      assert (ps + [p])[1..] == ps[1..] + [p];
      RunAppend(Step(s, ps[0]), ps[1..], p);
    }
  }

  /** The header element as the scroll listener sees it. */
  class HeaderResponder {
    var lastScroll: int
    /** The header carries the `scrolled` class. */
    var scrolled: bool
    /** The header is translated off-screen (`translateY(-100%)`), not `translateY(0)`. */
    var hidden: bool

    function State(): HeaderState
      reads this
    {
      HeaderState(lastScroll, scrolled, hidden)
    }

    constructor ()
      ensures State() == Initial
    {
      lastScroll, scrolled, hidden := 0, false, false;
    }

    /** The scroll listener at position `currentScroll`. */
    method OnScroll(currentScroll: int)
      modifies this
      ensures scrolled <==> currentScroll > 50
      ensures hidden <==> currentScroll > old(lastScroll) && currentScroll > 200
      ensures lastScroll == currentScroll
      ensures State() == Step(old(State()), currentScroll)
    {
      if currentScroll > ScrolledThreshold {
        scrolled := true;
      } else {
        scrolled := false;
      }
      if currentScroll > lastScroll && currentScroll > HideThreshold {
        hidden := true;
      } else {
        hidden := false;
      }
      lastScroll := currentScroll;
    }
  }
}
