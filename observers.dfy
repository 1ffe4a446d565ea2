/** The one-shot intersection observers of `initScrollAnimations` (threshold 0.1, effect:
    schedule the `aos-animate` class) and `initCounterAnimations` (threshold 0.5, effect:
    start the counter). Both callbacks have the same shape: every intersecting entry
    triggers the effect for its target and unobserves that target. The observer's target
    list is a set; the effects are recorded, in order, in a log. */
module OneShotObservers {

  /** An element of the page, by identity. */
  type ElementId = nat

  /** An `IntersectionObserverEntry`: its target and whether it is intersecting
      (the browser decides that from the observer's threshold). */
  datatype Entry = Entry(target: ElementId, isIntersecting: bool)

  /** The observed targets, and the targets whose effect has been triggered, in order. */
  datatype ObserverState = ObserverState(observed: set<ElementId>, fired: seq<ElementId>)

  /** The callback's body for one entry. */
  function Handle(s: ObserverState, e: Entry): ObserverState
  {
    if e.isIntersecting
    then ObserverState(s.observed - {e.target}, s.fired + [e.target])
    else s
  }

  /** The callback's `entries.forEach` over a whole batch. */
  function Deliver(s: ObserverState, es: seq<Entry>): (r: ObserverState)
    ensures |s.fired| <= |r.fired| && r.fired[..|s.fired|] == s.fired
    ensures forall x :: x in r.fired[|s.fired|..] <==> Entry(x, true) in es
    ensures forall x :: x in r.observed <==> x in s.observed && Entry(x, true) !in es
    decreases |es|
  {
    if es == [] then s
    else
      var init, e := es[..|es| - 1], es[|es| - 1];
      var t := Deliver(s, init);
      assert es == init + [e];
      assert forall x :: Entry(x, true) in es <==> Entry(x, true) in init || e == Entry(x, true);
      assert e.isIntersecting ==>
        (t.fired + [e.target])[|s.fired|..] == t.fired[|s.fired|..] + [e.target];
      Handle(t, e)
  }

  /** No target occurs twice in the log. */
  predicate NoDuplicates(xs: seq<ElementId>)
  {
    forall i, j :: 0 <= i < j < |xs| ==> xs[i] != xs[j]
  }

  /** What the browser delivers in one batch: at most one entry per target, and only for
      targets the observer still observes. */
  predicate WellFormedBatch(observed: set<ElementId>, es: seq<Entry>)
  {
    (forall i :: 0 <= i < |es| ==> es[i].target in observed) &&
    (forall i, j :: 0 <= i < j < |es| ==> es[i].target != es[j].target)
  }

  /** The one-shot invariant: each target triggered at most once, never observed again
      once triggered, and every target ever handled was one of the elements observed at
      set-up. */
  predicate OneShot(targets: set<ElementId>, s: ObserverState)
  {
    NoDuplicates(s.fired) &&
    s.observed <= targets &&
    (forall i :: 0 <= i < |s.fired| ==> s.fired[i] in targets && s.fired[i] !in s.observed)
  }

  /** Set-up: every selected element is observed and nothing has fired. */
  function Observe(targets: set<ElementId>): (r: ObserverState)
    ensures r.observed == targets && r.fired == []
    ensures OneShot(targets, r)
  {
    ObserverState(targets, [])
  }

  /** A batch with no intersecting entry changes nothing. */
  lemma {:induction false} NonIntersectingIgnored(s: ObserverState, es: seq<Entry>)
    requires forall i :: 0 <= i < |es| ==> !es[i].isIntersecting
    ensures Deliver(s, es) == s
    decreases |es|
  {
    if es != [] {
      NonIntersectingIgnored(s, es[..|es| - 1]);
    }
  }

  /** Delivering a well-formed batch keeps the one-shot invariant. */
  lemma {:induction false} DeliverKeepsOneShot(targets: set<ElementId>, s: ObserverState, es: seq<Entry>)
    requires OneShot(targets, s) && WellFormedBatch(s.observed, es)
    ensures OneShot(targets, Deliver(s, es))
    ensures forall x :: x in s.observed && Entry(x, true) !in es ==> x in Deliver(s, es).observed
    decreases |es|
  {
    if es != [] {
      var init, e := es[..|es| - 1], es[|es| - 1];
      assert WellFormedBatch(s.observed, init);
      DeliverKeepsOneShot(targets, s, init);
      var t := Deliver(s, init);
      assert es == init + [e];
      if e.isIntersecting {
        assert e.target in s.observed;
        assert e.target in t.observed;
        var r := Handle(t, e);
        assert r.fired == t.fired + [e.target];
        forall i, j | 0 <= i < j < |r.fired| ensures r.fired[i] != r.fired[j] {
          if j == |t.fired| {
            assert r.fired[i] == t.fired[i];
          }
        }
      }
    }
  }

  /** The browser's delivery of several batches, each assembled from the targets still
      observed at that point. */
  function DeliverAll(s: ObserverState, batches: seq<seq<Entry>>): ObserverState
    decreases |batches|
  {
    if batches == [] then s else DeliverAll(Deliver(s, batches[0]), batches[1..])
  }

  predicate WellFormedRun(s: ObserverState, batches: seq<seq<Entry>>)
    decreases |batches|
  {
    batches == [] ||
    (WellFormedBatch(s.observed, batches[0]) && WellFormedRun(Deliver(s, batches[0]), batches[1..]))
  }

  /** Over a whole page session, each observed element has its effect triggered at most once. */
  lemma {:induction false} AtMostOncePerElement(targets: set<ElementId>, batches: seq<seq<Entry>>)
    requires WellFormedRun(Observe(targets), batches)
    ensures OneShot(targets, DeliverAll(Observe(targets), batches))
  {
    DeliverAllKeepsOneShot(targets, Observe(targets), batches);
  }

  lemma {:induction false} DeliverAllKeepsOneShot(targets: set<ElementId>, s: ObserverState, batches: seq<seq<Entry>>)
    requires OneShot(targets, s) && WellFormedRun(s, batches)
    ensures OneShot(targets, DeliverAll(s, batches))
    decreases |batches|
  {
    if batches != [] {
      DeliverKeepsOneShot(targets, s, batches[0]);
      DeliverAllKeepsOneShot(targets, Deliver(s, batches[0]), batches[1..]);
    }
  }

  /** The callback does not itself skip targets it has already unobserved, so the
      one-shot guarantee rests on the browser's delivery: a batch carrying two
      intersecting entries for the same target triggers the effect twice. */
  lemma RepeatedEntryFiresTwice(x: ElementId)
    ensures Deliver(Observe({x}), [Entry(x, true), Entry(x, true)]).fired == [x, x]
  {
    var es := [Entry(x, true), Entry(x, true)];
    assert es[..1] == [Entry(x, true)];
    assert es[..1][..0] == [];
    assert Deliver(Observe({x}), es[..1]).fired == [x];
  }

  /** An intersection observer whose callback triggers an effect once per element. */
  class Observer {
    /** Targets still observed. */
    var observed: set<ElementId>
    /** Targets whose effect (`aos-animate` scheduled, counter started) has been triggered. */
    var fired: seq<ElementId>

    function State(): ObserverState
      reads this
    {
      ObserverState(observed, fired)
    }

    /** `new IntersectionObserver(...)` followed by `observe` on each selected element. */
    constructor (targets: set<ElementId>)
      ensures State() == Observe(targets)
    {
      observed := targets;
      fired := [];
    }

    /** The observer's callback on a batch of entries. */
    method Callback(entries: seq<Entry>)
      modifies this
      ensures State() == Deliver(old(State()), entries)
    {
      var i := 0;
      while i < |entries|
        invariant 0 <= i <= |entries|
        invariant State() == Deliver(old(State()), entries[..i])
      {
        var entry := entries[i];
        if entry.isIntersecting {
          fired := fired + [entry.target];
          observed := observed - {entry.target};
        }
        assert entries[..i + 1][..i] == entries[..i];
        i := i + 1;
      }
      assert entries[..i] == entries;
    }
  }
}
