/**
 * The scroll-reveal effect that each page section mounts: an intersection
 * observer watches the section's `.animate-on-scroll` elements, and every entry
 * delivered with `isIntersecting` adds the class `animate-visible` to its
 * target. Nothing removes that class, so a revealed element stays revealed.
 * Elements are opaque identities `E`; the browser decides `isIntersecting`, so
 * an entry is a pair of a target and that flag.
 */
module RevealOnScroll {
  import opened Wrappers

  /** The elements listed in `s`. */
  function Elems<E(==, !new)>(s: seq<E>): (r: set<E>)
    ensures forall x :: x in r <==> x in s
  {
    set x | x in s
  }

  /** The targets of the entries that report `isIntersecting`. */
  function Intersecting<E(==, !new)>(entries: seq<(E, bool)>): (r: set<E>)
    ensures forall x :: x in r <==> (x, true) in entries
  {
    if entries == [] then {}
    else
      var rest := entries[..|entries| - 1];
      var (target, isIntersecting) := entries[|entries| - 1];
      assert forall e :: e in entries <==> e in rest || e == (target, isIntersecting);
      Intersecting(rest) + (if isIntersecting then {target} else {})
  }

  /** The revealed elements after the callback has handled one batch of entries,
      starting from `before`. Nothing is ever taken out, and what is added is
      exactly the intersecting targets. */
  function Revealed<E(==, !new)>(before: set<E>, entries: seq<(E, bool)>): (after: set<E>)
    ensures before <= after
    ensures forall x :: x in after - before ==> (x, true) in entries
    ensures forall x :: (x, true) in entries ==> x in after
  {
    before + Intersecting(entries)
  }

  /** Delivering the same batch twice reveals nothing more than delivering it
      once: adding a class the element already has changes nothing. */
  lemma RevealedIdempotent<E(!new)>(before: set<E>, entries: seq<(E, bool)>)
    ensures Revealed(Revealed(before, entries), entries) == Revealed(before, entries)
  {
  }

  /** Entries that are not intersecting leave the revealed set as it was. */
  lemma NonIntersectingChangesNothing<E(!new)>(before: set<E>, entries: seq<(E, bool)>)
    requires forall k :: 0 <= k < |entries| ==> !entries[k].1
    ensures Revealed(before, entries) == before
  {
  }

  /** Two batches in a row reveal what their concatenation reveals in one. */
  lemma RevealedInBatches<E(!new)>(before: set<E>, first: seq<(E, bool)>, second: seq<(E, bool)>)
    ensures Revealed(Revealed(before, first), second) == Revealed(before, first + second)
  {
  }

  /** The order in which entries arrive does not matter: any rearrangement of a
      batch reveals the same elements. */
  lemma RevealedOrderFree<E(!new)>(before: set<E>, a: seq<(E, bool)>, b: seq<(E, bool)>)
    requires multiset(a) == multiset(b)
    ensures Revealed(before, a) == Revealed(before, b)
  {
    forall x ensures (x, true) in a <==> (x, true) in b {
      assert (x, true) in a <==> (x, true) in multiset(a);
      assert (x, true) in b <==> (x, true) in multiset(b);
    }
  }

  /** One mount of the effect: the observer, the list of elements it captured
      (`None` when the section's ref was empty), the elements it observes, and
      the elements carrying `animate-visible`. `registered` records every
      element this observer was ever asked to observe. */
  class RevealController<E(==, !new)> {
    var observed: set<E>
    var revealed: set<E>
    var attached: bool
    var captured: Option<seq<E>>
    ghost var registered: set<E>

    /** The elements the cleanup will unobserve. */
    function CapturedSet(): (r: set<E>)
      reads this
      ensures captured.None? ==> r == {}
      ensures captured.Some? ==> forall x :: x in r <==> x in captured.value
    {
      match captured
      case None => {}
      case Some(els) => Elems(els)
    }

    /** While mounted, exactly the captured elements are observed, and after
        cleanup none are; only elements that were observed were ever revealed. */
    ghost predicate Valid()
      reads this
    {
      && observed == (if attached then CapturedSet() else {})
      && observed <= registered
      && revealed <= registered
    }

    /** `new IntersectionObserver(callback, { threshold: 0.1 })`: nothing is
        observed or revealed yet. */
    constructor ()
      ensures Valid()
      ensures observed == {} && revealed == {} && !attached && captured == None
    {
      observed := {};
      revealed := {};
      attached := false;
      captured := None;
      registered := {};
    }

    /** The mount step: `querySelectorAll('.animate-on-scroll')` under the
        section yields `found` (`None` when the ref is empty), and each listed
        element is observed. */
    method Attach(found: Option<seq<E>>)
      requires Valid() && !attached
      modifies this
      ensures Valid() && attached
      ensures captured == found
      ensures found.None? ==> observed == {}
      ensures found.Some? ==> observed == Elems(found.value)
      ensures revealed == old(revealed)
    {
      captured := found;
      if found.Some? {
        var els := found.value;
        for i := 0 to |els|
          invariant observed == Elems(els[..i])
          invariant registered == old(registered) + observed
          invariant revealed == old(revealed)
          invariant captured == found
        {
          assert els[..i + 1] == els[..i] + [els[i]];
          observed := observed + {els[i]};
          registered := registered + {els[i]};
        }
        assert els[..|els|] == els;
      }
      attached := true;
    }

    /** The observer callback for one batch of entries. The observer only
        reports on elements it observes. Each intersecting entry adds its target
        to the revealed set; nothing is observed or unobserved. */
    method OnEntries(entries: seq<(E, bool)>)
      requires Valid()
      requires forall k :: 0 <= k < |entries| ==> entries[k].0 in observed
      modifies this
      ensures Valid()
      ensures revealed == Revealed(old(revealed), entries)
      ensures observed == old(observed) && attached == old(attached) && captured == old(captured)
    {
      for i := 0 to |entries|
        invariant revealed == old(revealed) + Intersecting(entries[..i])
        invariant revealed <= registered
        invariant observed == old(observed) && attached == old(attached) && captured == old(captured)
        invariant registered == old(registered)
      {
        assert entries[..i + 1] == entries[..i] + [entries[i]];
        var (target, isIntersecting) := entries[i];
        if isIntersecting {
          revealed := revealed + {target};
        }
      }
      assert entries[..|entries|] == entries;
    }

    /** The effect's cleanup: every captured element is unobserved. Revealed
        elements keep their class. Running it again changes nothing. */
    method Detach()
      requires Valid()
      modifies this
      ensures Valid() && !attached
      ensures observed == old(observed) - CapturedSet()
      ensures observed == {}
      ensures revealed == old(revealed) && captured == old(captured)
    {
      if captured.Some? {
        var els := captured.value;
        for i := 0 to |els|
          invariant observed == old(observed) - Elems(els[..i])
          invariant revealed == old(revealed) && captured == old(captured)
          invariant registered == old(registered)
        {
          assert els[..i + 1] == els[..i] + [els[i]];
          observed := observed - {els[i]};
        }
        assert els[..|els|] == els;
      }
      attached := false;
    }
  }

  /** One mount of a section with three marked elements: the first batch
      reveals the one that intersects, a repeated or non-intersecting entry
      changes nothing, and cleanup stops observation without hiding anything. */
  method Lifecycle() {
    var c := new RevealController<int>();
    c.Attach(Some([1, 2, 3]));
    assert c.observed == {1, 2, 3};
    c.OnEntries([(1, true), (2, false)]);
    assert c.revealed == {1};
    c.OnEntries([(1, true), (1, false)]);
    assert c.revealed == {1};
    c.Detach();
    assert c.observed == {} && c.revealed == {1};
  }
}
