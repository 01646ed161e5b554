/** client/src/pages/Categories.jsx: what the categories page shows, and
    the arithmetic of its statistics panel. A category's `postCount` may be
    missing from the data; it then counts as 0. */
module CategoriesPage {
  import opened Common

  function CountOf(postCount: Option<nat>): nat {
    if postCount.Some? then postCount.value else 0
  }

  /** "Total Posts": the sum of the counts. */
  function TotalPosts(counts: seq<Option<nat>>): nat
    decreases |counts|
  {
    if counts == [] then 0 else CountOf(counts[0]) + TotalPosts(counts[1..])
  }

  /** "Active Categories": how many counts are above 0. */
  function ActiveCategories(counts: seq<Option<nat>>): nat
    decreases |counts|
  {
    if counts == [] then 0 else (if CountOf(counts[0]) > 0 then 1 else 0) + ActiveCategories(counts[1..])
  }

  /** No more active categories than categories, nor than posts; and none
      active exactly when there are no posts at all. */
  lemma {:induction false} ActiveBounds(counts: seq<Option<nat>>)
    ensures ActiveCategories(counts) <= |counts|
    ensures ActiveCategories(counts) <= TotalPosts(counts)
    ensures ActiveCategories(counts) == 0 <==> TotalPosts(counts) == 0
    decreases |counts|
  {
    if counts != [] {
      ActiveBounds(counts[1..]);
    }
  }

  /** The sums split over concatenated lists. */
  lemma {:induction false} StatsAppend(a: seq<Option<nat>>, b: seq<Option<nat>>)
    ensures TotalPosts(a + b) == TotalPosts(a) + TotalPosts(b)
    ensures ActiveCategories(a + b) == ActiveCategories(a) + ActiveCategories(b)
    decreases |a|
  {
    if a == [] {
      assert a + b == b;
    } else {
      assert (a + b)[0] == a[0] && (a + b)[1..] == a[1..] + b;
      StatsAppend(a[1..], b);
    }
  }

  datatype Stats = Stats(totalCategories: nat, totalPosts: nat, activeCategories: nat)

  datatype Screen =
    | Loading
    | LoadFailed
    | Listing(addCategoryLink: bool, cards: nat, stats: Option<Stats>)   // no stats for an empty list

  /** The page for the query's state; `categories` is `data.categories`,
      None when absent. */
  function View(isLoading: bool, failed: bool, categories: Option<seq<Option<nat>>>, user: Option<Principal>): (s: Screen)
    ensures isLoading ==> s == Loading
    ensures !isLoading && failed ==> s == LoadFailed
    ensures var cats := if categories.Some? then categories.value else [];
      !isLoading && !failed ==> s.Listing? && s.cards == |cats| && (cats != [] ==> s.stats.Some?)
    ensures s.Listing? ==> (s.addCategoryLink <==> user.Some? && user.value.role == "admin")
    ensures s.Listing? ==> (s.stats.None? <==> s.cards == 0)
    ensures s.Listing? && (categories.None? || categories.value == []) ==> s.cards == 0 && s.stats.None?
    ensures s.Listing? && s.stats.Some? ==>
      && categories.Some?
      && s.stats.value == Stats(|categories.value|, TotalPosts(categories.value), ActiveCategories(categories.value))
      && s.stats.value.activeCategories <= s.stats.value.totalCategories
      && s.stats.value.activeCategories <= s.stats.value.totalPosts
  {
    if isLoading then Loading
    else if failed then LoadFailed
    else
      var cats := if categories.Some? then categories.value else [];
      var admin := user.Some? && IsAdmin(user.value);
      if |cats| > 0 then
        ActiveBounds(cats);
        Listing(admin, |cats|, Some(Stats(|cats|, TotalPosts(cats), ActiveCategories(cats))))
      else Listing(admin, 0, None)
  }
}
