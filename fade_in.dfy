/**
 * The fade-in reveal (script.js, "Intersection Observer for Fade-in
 * Animations"): every section starts hidden and is revealed by the first
 * notification that it intersects the viewport.
 */
module FadeIn {

  /** One observer entry: the index of the observed section and whether it
      is intersecting. */
  datatype Entry = Entry(target: nat, isIntersecting: bool)

  ghost predicate TargetsIn(entries: seq<Entry>, n: nat)
  {
    forall j :: 0 <= j < |entries| ==> entries[j].target < n
  }

  /** The revealed flags after the entries, handled in order. */
  function Notify(prev: seq<bool>, entries: seq<Entry>): (r: seq<bool>)
    requires TargetsIn(entries, |prev|)
    ensures |r| == |prev|
    ensures forall k :: 0 <= k < |prev| && prev[k] ==> r[k]
  {
    if entries == [] then prev
    else
      var before := Notify(prev, entries[..|entries| - 1]);
      var e := entries[|entries| - 1];
      if e.isIntersecting then before[e.target := true] else before
  }

  /** A section is revealed after a notification exactly when it was revealed
      before or some entry reported it intersecting. */
  lemma {:induction false} NotifyReveals(prev: seq<bool>, entries: seq<Entry>, k: nat)
    requires TargetsIn(entries, |prev|)
    requires k < |prev|
    ensures Notify(prev, entries)[k] <==>
      prev[k] || exists j :: 0 <= j < |entries| && entries[j].target == k && entries[j].isIntersecting
  {
    if entries != [] {
      var init := entries[..|entries| - 1];
      NotifyReveals(prev, init, k);
      assert forall j :: 0 <= j < |init| ==> init[j] == entries[j];
    }
  }

  /** Notifying the same entries again changes nothing. */
  lemma RenotifyIsIdempotent(prev: seq<bool>, entries: seq<Entry>)
    requires TargetsIn(entries, |prev|)
    ensures Notify(Notify(prev, entries), entries) == Notify(prev, entries)
  {
    var once := Notify(prev, entries);
    var twice := Notify(once, entries);
    forall k | 0 <= k < |prev| ensures twice[k] == once[k] {
      NotifyReveals(prev, entries, k);
      NotifyReveals(once, entries, k);
    }
  }

  /** The observed sections and whether each has been revealed (opacity 1,
      no offset) or is still hidden (opacity 0, shifted down). */
  class Revealer {
    const revealed: array<bool>

    /** Every section starts hidden. */
    constructor (sections: nat)
      ensures fresh(revealed) && revealed.Length == sections
      ensures forall k :: 0 <= k < sections ==> !revealed[k]
    {
      revealed := new bool[sections](_ => false);
    }

    /** The observer callback. */
    method OnIntersection(entries: seq<Entry>)
      requires TargetsIn(entries, revealed.Length)
      modifies revealed
      ensures revealed[..] == Notify(old(revealed[..]), entries)
    {
      var j := 0;
      while j < |entries|
        invariant 0 <= j <= |entries|
        invariant revealed[..] == Notify(old(revealed[..]), entries[..j])
      {
        assert entries[..j + 1][..j] == entries[..j];
        if entries[j].isIntersecting {
          revealed[entries[j].target] := true;
        }
        j := j + 1;
      }
      assert entries[..j] == entries;
    }
  }
}
