/** The closet grid's search box and its category and occasion filters
    (components/ClosetView.tsx). */
module Closet {
  import opened Types
  import opened Seqs
  import opened Strings

  /** A filter chip: every value, or one chosen value. */
  datatype Choice<T> = All | Only(value: T)

  /** The query, lowercased, occurs in the category name, in the lowercased
      brand when there is one, or in some lowercased colour. */
  predicate MatchesSearch(item: ClothingItem, search: string)
  {
    var q := Lower(search);
    || Contains(CategoryName(item.category), q)
    || (item.brand.Some? && Contains(Lower(item.brand.value), q))
    || exists i :: 0 <= i < |item.colors| && Contains(Lower(item.colors[i]), q)
  }

  predicate MatchesCategory(item: ClothingItem, category: Choice<Category>)
  {
    category.All? || item.category == category.value
  }

  predicate MatchesOccasion(item: ClothingItem, occasion: Choice<Occasion>)
  {
    occasion.All? || occasion.value in item.occasions
  }

  function ShownBy(search: string, category: Choice<Category>, occasion: Choice<Occasion>): ClothingItem -> bool
  {
    (item: ClothingItem) => MatchesSearch(item, search) && MatchesCategory(item, category) && MatchesOccasion(item, occasion)
  }

  /** The items on display: exactly those passing all three tests, in the
      order the closet lists them. */
  function FilteredItems(items: seq<ClothingItem>, search: string, category: Choice<Category>, occasion: Choice<Occasion>): (r: seq<ClothingItem>)
    ensures IsSubsequence(r, items)
    ensures forall i :: 0 <= i < |r| ==>
      MatchesSearch(r[i], search) && MatchesCategory(r[i], category) && MatchesOccasion(r[i], occasion)
    ensures forall i :: 0 <= i < |items| ==>
      (MatchesSearch(items[i], search) && MatchesCategory(items[i], category) && MatchesOccasion(items[i], occasion) ==> items[i] in r)
    ensures forall x :: x in r ==> multiset(r)[x] == multiset(items)[x]
  {
    FilterIsSubsequence(items, ShownBy(search, category, occasion));
    FilterCounts(items, ShownBy(search, category, occasion));
    Filter(items, ShownBy(search, category, occasion))
  }

  /** With an empty search box and both chips on "all", every item shows. */
  lemma NoFilterShowsAll(items: seq<ClothingItem>)
    ensures FilteredItems(items, "", All, All) == items
  {
    forall i | 0 <= i < |items| ensures ShownBy("", All, All)(items[i]) {
      ContainsEmpty(CategoryName(items[i].category));
    }
    FilterKeepsAll(items, ShownBy("", All, All));
  }

  /** The search ignores the case of the query. */
  lemma SearchIgnoresCase(items: seq<ClothingItem>, search: string, category: Choice<Category>, occasion: Choice<Occasion>)
    ensures FilteredItems(items, Lower(search), category, occasion) == FilteredItems(items, search, category, occasion)
  {
    LowerIdempotent(search);
    FilterSamePredicate(items, ShownBy(Lower(search), category, occasion), ShownBy(search, category, occasion));
  }

  /** Choosing a category narrows the "all categories" view to the items of
      that category, keeping their order. */
  lemma CategoryNarrows(items: seq<ClothingItem>, search: string, c: Category, occasion: Choice<Occasion>)
    ensures FilteredItems(items, search, Only(c), occasion) ==
      Filter(FilteredItems(items, search, All, occasion), ShownBy(search, Only(c), occasion))
  {
    FilterNarrow(items, ShownBy(search, Only(c), occasion), ShownBy(search, All, occasion));
  }
}
