/**
 * The project filter (script.js, "Project Filters"): a click on a
 * `.filter-btn` marks that button alone as active and hides or shows every
 * `.project-item` by its `data-category` attribute.
 */
module ProjectFilter {
  import opened Wrappers

  /** The filter value that shows every item. */
  const All: string := "all"

  /** `needle` occurs in `hay` starting at position `i`. */
  ghost predicate OccursAt(hay: string, needle: string, i: nat)
  {
    i + |needle| <= |hay| && hay[i..i + |needle|] == needle
  }

  /** `String.prototype.includes`: some position of `hay` starts `needle`. */
  function Includes(hay: string, needle: string): (r: bool)
    ensures r ==> |needle| <= |hay|
    ensures needle == [] ==> r
  {
    if |needle| <= |hay| && hay[..|needle|] == needle then true
    else if hay == [] then false
    else Includes(hay[1..], needle)
  }

  /** An occurrence in the tail is an occurrence one position later in the whole. */
  lemma OccursInTail(hay: string, needle: string, i: nat)
    requires hay != []
    ensures OccursAt(hay[1..], needle, i) <==> OccursAt(hay, needle, i + 1)
  {
    if i + 1 + |needle| <= |hay| {
      assert hay[1..][i..i + |needle|] == hay[i + 1..i + 1 + |needle|];
    }
  }

  lemma {:induction false} IncludesIsSubstring(hay: string, needle: string)
    ensures Includes(hay, needle) <==> exists i: nat :: OccursAt(hay, needle, i)
  {
    if |needle| <= |hay| && hay[..|needle|] == needle {
      assert OccursAt(hay, needle, 0);
    } else if hay == [] {
      assert forall i: nat :: !OccursAt(hay, needle, i);
    } else {
      IncludesIsSubstring(hay[1..], needle);
      assert !OccursAt(hay, needle, 0);
      if Includes(hay, needle) {
        var i: nat :| OccursAt(hay[1..], needle, i);
        OccursInTail(hay, needle, i);
      }
      if i: nat :| OccursAt(hay, needle, i) {
        OccursInTail(hay, needle, i - 1);
      }
    }
  }

  /** The string `includes` searches for: a missing `data-filter` attribute
      reads as `null`, which `includes` converts to the string "null". */
  function SearchString(filter: Option<string>): string
  {
    match filter
    case Some(f) => f
    case None => "null"
  }

  /** Whether an item with category attribute `category` stays visible under
      `filter`: always for "all", otherwise when the attribute is present,
      non-empty (an empty string is falsy) and contains the filter value. */
  predicate Shown(filter: Option<string>, category: Option<string>)
    ensures filter != Some(All) && Shown(filter, category) ==>
      category.Some? && category.value != "" && |SearchString(filter)| <= |category.value|
  {
    if filter == Some(All) then true
    else category.Some? && category.value != "" && Includes(category.value, SearchString(filter))
  }

  /** The `hidden` flags of all items after filtering by `filter`. */
  function HiddenFlags(filter: Option<string>, categories: seq<Option<string>>): (r: seq<bool>)
    ensures |r| == |categories|
  {
    seq(|categories|, k requires 0 <= k < |categories| => !Shown(filter, categories[k]))
  }

  /** "all" shows every item. */
  lemma AllShowsEverything(categories: seq<Option<string>>)
    ensures forall k :: 0 <= k < |categories| ==> !HiddenFlags(Some(All), categories)[k]
  {
  }

  /** Any other filter shows an item exactly when its category attribute is
      present, non-empty and has the filter value as a substring. */
  lemma ShownIffCategoryContains(filter: Option<string>, categories: seq<Option<string>>, k: nat)
    requires filter != Some(All)
    requires k < |categories|
    ensures !HiddenFlags(filter, categories)[k] <==>
      (categories[k].Some? && categories[k].value != "" &&
       exists i: nat :: OccursAt(categories[k].value, SearchString(filter), i))
  {
    if categories[k].Some? {
      IncludesIsSubstring(categories[k].value, SearchString(filter));
    }
  }

  /** The filter buttons (by `data-filter`) and the project items (by
      `data-category`), with the `active` and `hidden` classes. */
  class FilterBar {
    const filters: seq<Option<string>>
    const buttonActive: array<bool>
    const categories: seq<Option<string>>
    const hidden: array<bool>

    ghost predicate Valid()
      reads this
    {
      buttonActive.Length == |filters| && hidden.Length == |categories| && buttonActive != hidden
    }

    /** The button and item lists with their initial classes. */
    constructor (filters: seq<Option<string>>, active: seq<bool>, categories: seq<Option<string>>, hidden: seq<bool>)
      requires |active| == |filters| && |hidden| == |categories|
      ensures Valid() && fresh(buttonActive) && fresh(this.hidden)
      ensures this.filters == filters && this.categories == categories
      ensures buttonActive[..] == active && this.hidden[..] == hidden
    {
      this.filters := filters;
      this.categories := categories;
      buttonActive := new bool[|filters|](j requires 0 <= j < |filters| => active[j]);
      this.hidden := new bool[|categories|](j requires 0 <= j < |categories| => hidden[j]);
    }

    /** A click on button `b`. The new `hidden` flags are a function of the
        clicked filter and the categories alone. */
    method OnFilterClick(b: nat)
      requires Valid() && b < |filters|
      modifies buttonActive, hidden
      ensures forall j :: 0 <= j < buttonActive.Length ==> buttonActive[j] == (j == b)
      ensures hidden[..] == HiddenFlags(filters[b], categories)
    {
      var j := 0;
      while j < buttonActive.Length
        invariant 0 <= j <= buttonActive.Length
        invariant forall m :: 0 <= m < j ==> !buttonActive[m]
      {
        buttonActive[j] := false;
        j := j + 1;
      }
      buttonActive[b] := true;

      var filterValue := filters[b];
      var k := 0;
      while k < hidden.Length
        invariant 0 <= k <= hidden.Length
        invariant forall m :: 0 <= m < buttonActive.Length ==> buttonActive[m] == (m == b)
        invariant forall m :: 0 <= m < k ==> hidden[m] == !Shown(filterValue, categories[m])
      {
        if filterValue == Some(All) {
          hidden[k] := false;
        } else {
          var category := categories[k];
          if category.Some? && category.value != "" && Includes(category.value, SearchString(filterValue)) {
            hidden[k] := false;
          } else {
            hidden[k] := true;
          }
        }
        k := k + 1;
      }
    }
  }
}
