/** The testimonials auto-scroller (`initTestimonialsSlider`).
    The closure variable `scrollAmount` is a field; `cardWidth` and `maxScroll` are the
    values read from the page when the slider starts (integers: `offsetWidth`,
    `scrollWidth` and `clientWidth` are whole pixels). */
module TestimonialsSlider {

  /** Viewports wider than this get no auto-scroller. */
  const MaxViewportWidth: int := 768
  /** The gap added to a card's width to get one step of the scroller. */
  const CardGap: int := 32

  /** Whether `initTestimonialsSlider` starts a scroller: the slider must exist and
      the viewport must be at most 768 wide. */
  predicate Starts(sliderPresent: bool, innerWidth: int)
  {
    sliderPresent && innerWidth <= MaxViewportWidth
  }

  /** One tick of the interval: advance by one card, back to the start once past the end. */
  function Advance(amount: int, cardWidth: int, maxScroll: int): int
  {
    if amount + cardWidth > maxScroll then 0 else amount + cardWidth
  }

  /** `scrollAmount` after `k` ticks from `amount`. */
  function Ticks(amount: int, cardWidth: int, maxScroll: int, k: nat): int
    decreases k
  {
    if k == 0 then amount else Advance(Ticks(amount, cardWidth, maxScroll, k - 1), cardWidth, maxScroll)
  }

  /** The values `scrollAmount` can hold: a whole number of cards, within [0, maxScroll]
      (or 0 when there is nothing to scroll). */
  predicate InRange(amount: int, cardWidth: int, maxScroll: int)
    requires cardWidth > 0
  {
    0 <= amount && (amount == 0 || amount <= maxScroll) && amount % cardWidth == 0
  }

  /** Division with remainder is unique: `x == q * n + r` with `0 <= r < n` fixes both. */
  lemma DivModUnique(x: int, n: int, q: int, r: int)
    requires n > 0 && 0 <= r < n && x == q * n + r
    ensures x / n == q && x % n == r
  {
    var d := x / n - q;
    assert x == (x / n) * n + x % n;
    assert (x / n) * n - q * n == d * n;
    assert d * n == r - x % n;
    if d >= 1 {
      MulMonotone(1, d, n);
      assert false;
    } else if d <= -1 {
      MulMonotone(d, -1, n);
      assert false;
    }
  }

  /** A tick keeps `scrollAmount` in range. */
  lemma AdvanceInRange(amount: int, cardWidth: int, maxScroll: int)
    requires cardWidth > 0 && InRange(amount, cardWidth, maxScroll)
    ensures InRange(Advance(amount, cardWidth, maxScroll), cardWidth, maxScroll)
  {
    if amount + cardWidth <= maxScroll {
      var q := amount / cardWidth;
      assert amount == q * cardWidth;
      assert amount + cardWidth == (q + 1) * cardWidth + 0;
      DivModUnique(amount + cardWidth, cardWidth, q + 1, 0);
    }
  }

  /** Counting modulo `n`: one more step moves the remainder on by one, wrapping at `n`. */
  lemma ModStep(k: nat, n: int)
    requires n > 0 && k > 0
    ensures k % n == if (k - 1) % n + 1 < n then (k - 1) % n + 1 else 0
  {
    var q, j := (k - 1) / n, (k - 1) % n;
    assert k - 1 == q * n + j;
    if j + 1 < n {
      DivModUnique(k, n, q, j + 1);
    } else {
      assert k == q * n + n;
      assert q * n + n == (q + 1) * n;
      DivModUnique(k, n, q + 1, 0);
    }
  }

  /** The largest whole number of cards within the maximum scroll, `m = M / W`:
      `m` cards fit, `m + 1` do not. */
  lemma CardsThatFit(maxScroll: int, cardWidth: int, j: int)
    requires cardWidth > 0 && maxScroll >= 0 && 0 <= j
    ensures j <= maxScroll / cardWidth ==> j * cardWidth <= maxScroll
    ensures j > maxScroll / cardWidth ==> j * cardWidth > maxScroll
  {
    var m := maxScroll / cardWidth;
    assert maxScroll == m * cardWidth + maxScroll % cardWidth;
    if j <= m {
      MulMonotone(j, m, cardWidth);
    } else {
      MulMonotone(m + 1, j, cardWidth);
      assert (m + 1) * cardWidth == m * cardWidth + cardWidth;
    }
  }

  /** Starting from 0, the scroller visits 0, W, 2W, ..., NW and wraps, where N = M / W is
      the number of whole cards that fit within the maximum scroll M: after `k` ticks it
      sits at `(k % (N + 1)) * W`. */
  lemma {:induction false} TicksClosedForm(cardWidth: int, maxScroll: int, k: nat)
    requires cardWidth > 0 && maxScroll >= 0
    ensures Ticks(0, cardWidth, maxScroll, k) == (k % (maxScroll / cardWidth + 1)) * cardWidth
    decreases k
  {
    var n := maxScroll / cardWidth + 1;
    if k == 0 {
      DivModUnique(0, n, 0, 0);
    } else {
      TicksClosedForm(cardWidth, maxScroll, k - 1);
      var j := (k - 1) % n;
      ModStep(k, n);
      AdvanceOneCard(cardWidth, maxScroll, j);
      if j + 1 < n {
        assert k % n == j + 1;
      } else {
        assert k % n == 0;
        assert 0 * cardWidth == 0;
      }
    }
  }

  /** From the `j`-th card, a tick moves to the next one if it still fits, and to 0 if not. */
  lemma AdvanceOneCard(cardWidth: int, maxScroll: int, j: int)
    requires cardWidth > 0 && maxScroll >= 0 && 0 <= j
    ensures Advance(j * cardWidth, cardWidth, maxScroll) ==
            if j + 1 <= maxScroll / cardWidth then (j + 1) * cardWidth else 0
  {
    assert j * cardWidth + cardWidth == (j + 1) * cardWidth;
    CardsThatFit(maxScroll, cardWidth, j + 1);
  }

  lemma MulMonotone(a: int, b: int, c: int)
    requires a <= b && c >= 0
    ensures a * c <= b * c
  {
  }

  /** A running scroller. */
  class Slider {
    var scrollAmount: int
    const cardWidth: int
    const maxScroll: int

    predicate Valid()
      reads this
    {
      cardWidth >= CardGap && InRange(scrollAmount, cardWidth, maxScroll)
    }

    /** The scroller's set-up once it has been decided to start: the step is the first
        card's `offsetWidth` plus 32, the extent is `scrollWidth - clientWidth`. */
    constructor (cardOffsetWidth: nat, scrollWidth: int, clientWidth: int)
      ensures Valid() && scrollAmount == 0
      ensures cardWidth == cardOffsetWidth + CardGap && maxScroll == scrollWidth - clientWidth
    {
      scrollAmount := 0;
      cardWidth := cardOffsetWidth + CardGap;
      maxScroll := scrollWidth - clientWidth;
    }

    /** The interval's callback (every 5000 ms); the `scrollTo` it issues goes to `scrollAmount`. */
    method Tick()
      requires Valid()
      modifies this
      ensures Valid()
      ensures scrollAmount == if old(scrollAmount) + cardWidth > maxScroll then 0 else old(scrollAmount) + cardWidth
    {
      AdvanceInRange(scrollAmount, cardWidth, maxScroll);
      scrollAmount := scrollAmount + cardWidth;
      if scrollAmount > maxScroll {
        scrollAmount := 0;
      }
    }
  }

  /** `initTestimonialsSlider`: returns the started scroller, or null when the slider is
      absent or the viewport is wider than 768. */
  method Init(sliderPresent: bool, innerWidth: int, cardOffsetWidth: nat, scrollWidth: int, clientWidth: int)
    returns (s: Slider?)
    ensures s == null <==> !Starts(sliderPresent, innerWidth)
    ensures s != null ==> fresh(s) && s.Valid() && s.scrollAmount == 0
    ensures s != null ==> s.cardWidth == cardOffsetWidth + 32 && s.maxScroll == scrollWidth - clientWidth
  {
    if !sliderPresent || innerWidth > MaxViewportWidth {
      return null;
    }
    s := new Slider(cardOffsetWidth, scrollWidth, clientWidth);
  }
}
