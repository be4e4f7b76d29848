/**
 * The scroll handler that marks the navigation link of the section currently
 * on screen (script.js, "Active Navigation Link on Scroll").
 *
 * The document is reduced to plain state: the sections in document order with
 * their integer layout offsets, the viewport measurements of the tick, and one
 * `active` flag per `.nav-link`, in document order, next to that link's href.
 */
module ActiveSection {
  import opened Wrappers

  /** Pixels subtracted from every section top before comparing with the offset. */
  const ScrollOffset: int := 100
  /** The last section is active once the page bottom is closer than this. */
  const BottomSlack: int := 150

  /** A `section[id]` element: its id attribute, `offsetTop` and `offsetHeight`. */
  datatype Section = Section(id: string, offsetTop: int, offsetHeight: int)

  /** What one scroll tick reads: `pageYOffset`, `innerHeight`, `scrollHeight`. */
  datatype Viewport = Viewport(scrollY: int, windowHeight: int, documentHeight: int)

  function SectionTop(s: Section): int
  {
    s.offsetTop - ScrollOffset
  }

  function DistanceFromBottom(v: Viewport): int
  {
    v.documentHeight - (v.scrollY + v.windowHeight)
  }

  /** Whether section `index` claims the tick: the last section by its
      near-the-bottom-or-past-its-top rule, every other one by its band
      (top, top + height], open below and closed above. */
  predicate Matches(sections: seq<Section>, index: nat, v: Viewport)
    requires index < |sections|
    ensures index < |sections| - 1 && sections[index].offsetHeight <= 0 ==> !Matches(sections, index, v)
    ensures index == |sections| - 1 && DistanceFromBottom(v) < BottomSlack ==> Matches(sections, index, v)
  {
    var top := SectionTop(sections[index]);
    if index == |sections| - 1 then
      DistanceFromBottom(v) < BottomSlack || v.scrollY > top
    else
      top < v.scrollY && v.scrollY <= top + sections[index].offsetHeight
  }

  /** The last section among the first `n` that matches, if any. */
  function Winner(sections: seq<Section>, v: Viewport, n: nat): (r: Option<nat>)
    requires n <= |sections|
    ensures r.Some? ==> r.value < n && Matches(sections, r.value, v)
  {
    if n == 0 then None
    else if Matches(sections, n - 1, v) then Some(n - 1)
    else Winner(sections, v, n - 1)
  }

  /** The href a section's navigation link carries. */
  function HrefFor(id: string): string
  {
    "#" + id
  }

  /** `document.querySelector('.nav-link[href="…"]')`: the first link, in
      document order, whose href is `target`. */
  function FirstLink(hrefs: seq<string>, target: string): (r: Option<nat>)
    ensures r.Some? ==> r.value < |hrefs| && hrefs[r.value] == target
    ensures r.Some? ==> forall k :: 0 <= k < r.value ==> hrefs[k] != target
    ensures r.None? ==> forall k :: 0 <= k < |hrefs| ==> hrefs[k] != target
  {
    if hrefs == [] then None
    else if hrefs[0] == target then Some(0)
    else match FirstLink(hrefs[1..], target)
      case None => None
      case Some(k) => Some(k + 1)
  }

  /** The link flags after "clear every link, then mark the link for `id`". */
  function Marked(hrefs: seq<string>, id: string): (r: seq<bool>)
    ensures |r| == |hrefs| && AtMostOne(r)
    ensures forall j :: 0 <= j < |r| && r[j] ==> hrefs[j] == HrefFor(id)
    ensures (exists j :: 0 <= j < |r| && r[j]) <==> (exists j :: 0 <= j < |hrefs| && hrefs[j] == HrefFor(id))
  {
    var link := FirstLink(hrefs, HrefFor(id));
    var r := seq(|hrefs|, j => link == Some(j));
    assert link.Some? ==> r[link.value];
    r
  }

  /** The link flags after a whole scroll tick, from the flags before it. */
  function AfterTick(prev: seq<bool>, hrefs: seq<string>, sections: seq<Section>, v: Viewport): (r: seq<bool>)
    ensures |prev| == |hrefs| ==> |r| == |hrefs|
    ensures AtMostOne(prev) ==> AtMostOne(r)
  {
    match Winner(sections, v, |sections|)
    case None => prev
    case Some(w) => Marked(hrefs, sections[w].id)
  }

  /** At most one link carries the `active` class. */
  ghost predicate AtMostOne(flags: seq<bool>)
  {
    forall j, k :: 0 <= j < |flags| && 0 <= k < |flags| && flags[j] && flags[k] ==> j == k
  }

  /** The winner is exactly the last matching section: it matches, and no
      section after it (among the first `n`) does; there is none exactly
      when no section matches. */
  lemma {:induction false} WinnerIsLastMatch(sections: seq<Section>, v: Viewport, n: nat)
    requires n <= |sections|
    ensures Winner(sections, v, n).None? <==> forall j :: 0 <= j < n ==> !Matches(sections, j, v)
    ensures forall w: nat :: Winner(sections, v, n) == Some(w) <==>
      (w < n && Matches(sections, w, v) && forall j :: w < j < n ==> !Matches(sections, j, v))
  {
    if n > 0 {
      WinnerIsLastMatch(sections, v, n - 1);
    }
  }

  /** The last section's rule overrides every earlier match. */
  lemma LastSectionOverrides(sections: seq<Section>, v: Viewport)
    requires |sections| > 0
    requires DistanceFromBottom(v) < BottomSlack || v.scrollY > SectionTop(sections[|sections| - 1])
    ensures Winner(sections, v, |sections|) == Some(|sections| - 1)
  {
  }

  /** A non-last section's band is half-open: the offset equal to its top does
      not select it, the offset equal to its bottom does. */
  lemma BandIsHalfOpen(sections: seq<Section>, i: nat, v: Viewport)
    requires i < |sections| - 1
    ensures v.scrollY == SectionTop(sections[i]) ==> !Matches(sections, i, v)
    ensures v.scrollY == SectionTop(sections[i]) + sections[i].offsetHeight && sections[i].offsetHeight > 0
      ==> Matches(sections, i, v)
  {
  }

  /** A tick on which no section matches leaves every flag as it was. */
  lemma NoMatchKeepsFlags(prev: seq<bool>, hrefs: seq<string>, sections: seq<Section>, v: Viewport)
    requires forall j :: 0 <= j < |sections| ==> !Matches(sections, j, v)
    ensures AfterTick(prev, hrefs, sections, v) == prev
  {
    WinnerIsLastMatch(sections, v, |sections|);
  }

  /** A tick on which some section matches leaves at most one link active,
      the first link whose href names the last matching section; when no link
      names it, every link ends inactive. */
  lemma {:induction false} MatchMarksWinnerLink(prev: seq<bool>, hrefs: seq<string>, sections: seq<Section>, v: Viewport, w: nat)
    requires w < |sections| && Matches(sections, w, v)
    requires forall j :: w < j < |sections| ==> !Matches(sections, j, v)
    ensures var after := AfterTick(prev, hrefs, sections, v);
      && |after| == |hrefs|
      && AtMostOne(after)
      && (forall k :: 0 <= k < |hrefs| && after[k] ==> hrefs[k] == HrefFor(sections[w].id))
      && ((exists k :: 0 <= k < |hrefs| && hrefs[k] == HrefFor(sections[w].id)) <==>
          (exists k :: 0 <= k < |hrefs| && after[k]))
  {
    WinnerIsLastMatch(sections, v, |sections|);
    var after := AfterTick(prev, hrefs, sections, v);
    assert after == Marked(hrefs, sections[w].id);
    var link := FirstLink(hrefs, HrefFor(sections[w].id));
    if k :| 0 <= k < |hrefs| && hrefs[k] == HrefFor(sections[w].id) {
      assert link.Some?;
      assert after[link.value];
    }
  }

  /** A layout whose sections do not overlap: heights are non-negative and
      each section starts at or below the end of the previous one, so gaps
      (margins) between sections are allowed. */
  ghost predicate NonOverlapping(sections: seq<Section>)
  {
    && (forall i :: 0 <= i < |sections| ==> sections[i].offsetHeight >= 0)
    && (forall i :: 0 < i < |sections| ==>
          sections[i].offsetTop >= sections[i - 1].offsetTop + sections[i - 1].offsetHeight)
  }

  lemma {:induction false} TopsGrow(sections: seq<Section>, i: nat, j: nat)
    requires NonOverlapping(sections)
    requires i < j < |sections|
    ensures sections[i].offsetTop + sections[i].offsetHeight <= sections[j].offsetTop
  {
    if j > i + 1 {
      TopsGrow(sections, i, j - 1);
    }
  }

  /** In a non-overlapping layout the bands of the non-last sections are disjoint,
      so only the last section's rule can override another match. */
  lemma BandsDisjoint(sections: seq<Section>, v: Viewport, i: nat, j: nat)
    requires NonOverlapping(sections)
    requires i < j < |sections| - 1
    ensures !(Matches(sections, i, v) && Matches(sections, j, v))
  {
    TopsGrow(sections, i, j);
  }

  /**
   * The `.nav-link` elements: each link's href and its `active` class.
   */
  class NavLinks {
    const hrefs: seq<string>
    const active: array<bool>

    ghost predicate Valid()
      reads this
    {
      active.Length == |hrefs|
    }

    constructor (hrefs: seq<string>, initial: seq<bool>)
      requires |initial| == |hrefs|
      ensures Valid() && fresh(active)
      ensures this.hrefs == hrefs && active[..] == initial
    {
      this.hrefs := hrefs;
      active := new bool[|hrefs|](j requires 0 <= j < |hrefs| => initial[j]);
    }

    /** Removes `active` from every link, then adds it to the link for `id`. */
    method Activate(id: string)
      requires Valid()
      modifies active
      ensures active[..] == Marked(hrefs, id)
    {
      var j := 0;
      while j < active.Length
        invariant 0 <= j <= active.Length
        invariant forall k :: 0 <= k < j ==> !active[k]
      {
        active[j] := false;
        j := j + 1;
      }
      var link := FindLink(HrefFor(id));
      if link.Some? {
        active[link.value] := true;
      }
    }

    /** The lookup of the first link with the given href. */
    method FindLink(target: string) returns (r: Option<nat>)
      requires Valid()
      ensures r == FirstLink(hrefs, target)
    {
      var j := 0;
      while j < |hrefs|
        invariant 0 <= j <= |hrefs|
        invariant forall k :: 0 <= k < j ==> hrefs[k] != target
      {
        if hrefs[j] == target {
          FirstLinkUnique(hrefs, target, j);
          return Some(j);
        }
        j := j + 1;
      }
      r := None;
    }

    /** One scroll tick: every section in document order that matches clears
        all links and marks its own. */
    method OnScroll(sections: seq<Section>, v: Viewport)
      requires Valid()
      modifies active
      ensures active[..] == AfterTick(old(active[..]), hrefs, sections, v)
    {
      var index := 0;
      while index < |sections|
        invariant 0 <= index <= |sections|
        invariant active[..] == match Winner(sections, v, index)
          case None => old(active[..])
          case Some(w) => Marked(hrefs, sections[w].id)
      {
        if Matches(sections, index, v) {
          Activate(sections[index].id);
        }
        index := index + 1;
      }
    }
  }

  /** The first matching index is determined by the stated properties. */
  lemma FirstLinkUnique(hrefs: seq<string>, target: string, j: nat)
    requires j < |hrefs| && hrefs[j] == target
    requires forall k :: 0 <= k < j ==> hrefs[k] != target
    ensures FirstLink(hrefs, target) == Some(j)
  {
  }
}
