/** client/src/pages/Home.jsx: the listing filters of the home page and its
    pagination controls. The page asks the post listing for nine posts a
    page. */
module Home {
  import Paging

  const PageLimit := 9

  /** The selected category ("" for all posts), the search text and the current page. */
  datatype Filters = Filters(category: string, search: string, page: int)

  /** `handleCategoryChange`: choosing the selected category clears the
      selection, choosing another selects it; back to the first page. */
  function CategoryChange(f: Filters, c: string): (r: Filters)
    ensures r.category == (if c == f.category then "" else c)
    ensures r.page == 1 && r.search == f.search
  {
    f.(category := if c == f.category then "" else c, page := 1)
  }

  /** "All Posts" always ends with no selection. */
  lemma AllPostsClears(f: Filters)
    ensures CategoryChange(f, "").category == ""
  {
  }

  /** Choosing the same category twice gives back the selection it started from
      when that was empty or that category. */
  lemma CategoryTwice(f: Filters, c: string)
    requires f.category == "" || f.category == c
    ensures CategoryChange(CategoryChange(f, c), c).category == f.category
  {
  }

  /** `handleSearch`: back to the first page. */
  function Search(f: Filters): (r: Filters)
    ensures r == f.(page := 1)
  {
    f.(page := 1)
  }

  /** Typing in the search box changes the query but not the page. */
  function TypeSearch(f: Filters, text: string): (r: Filters)
    ensures r.search == text && r.page == f.page && r.category == f.category
  {
    f.(search := text)
  }

  /** The pagination controls: hidden, or the Previous and Next buttons
      (each possibly disabled) around the numbered buttons. */
  datatype Controls = Hidden | Shown(prevDisabled: bool, nextDisabled: bool, numbers: seq<int>)

  /** `Array.from({ length: totalPages }, (_, i) => i + 1)`. */
  function PageNumbers(totalPages: nat): (r: seq<int>)
    ensures |r| == totalPages
    ensures forall i :: 0 <= i < |r| ==> r[i] == i + 1
  {
    seq(totalPages, i requires 0 <= i < totalPages => i + 1)
  }

  /** A page number is offered exactly when it lies between 1 and the page count. */
  lemma PageNumbersRange(totalPages: nat, k: int)
    ensures k in PageNumbers(totalPages) <==> 1 <= k <= totalPages
  {
    if 1 <= k <= totalPages {
      assert PageNumbers(totalPages)[k - 1] == k;
    }
  }

  /** The controls for the current page, the number of posts on it and the
      response's `totalPages`: rendered only for a page with posts and more
      than one page; Previous is disabled on page 1, Next on the last page. */
  function ControlsFor(page: int, pagePosts: int, totalPages: int): (c: Controls)
    ensures c.Shown? <==> pagePosts > 0 && totalPages > 1
    ensures c.Shown? ==>
      && c.numbers == PageNumbers(totalPages)
      && (c.prevDisabled <==> page == 1)
      && (c.nextDisabled <==> page == totalPages)
  {
    if pagePosts > 0 && totalPages > 1 then Shown(page == 1, page == totalPages, PageNumbers(totalPages))
    else Hidden
  }

  datatype Click = Prev | Next | Number(k: int)

  /** The page after a click on shown controls: a number goes to that page,
      an enabled Previous or Next moves by one, a disabled one does nothing. */
  function ClickPage(page: int, c: Controls, click: Click): (r: int)
    requires c.Shown?
    ensures click.Number? ==> r == click.k
    ensures click.Prev? ==> r == (if c.prevDisabled then page else page - 1)
    ensures click.Next? ==> r == (if c.nextDisabled then page else page + 1)
    ensures r != page ==> click.Number? || (click.Prev? && !c.prevDisabled) || (click.Next? && !c.nextDisabled)
  {
    match click
    case Prev => if c.prevDisabled then page else page - 1
    case Next => if c.nextDisabled then page else page + 1
    case Number(k) => k
  }

  /** From a page in range, every button the controls offer keeps the page in range. */
  lemma ClickStaysInRange(page: int, pagePosts: int, totalPages: int, click: Click)
    requires 1 <= page <= totalPages
    requires ControlsFor(page, pagePosts, totalPages).Shown?
    requires click.Number? ==> click.k in ControlsFor(page, pagePosts, totalPages).numbers
    ensures 1 <= ClickPage(page, ControlsFor(page, pagePosts, totalPages), click) <= totalPages
  {
    if click.Number? {
      PageNumbersRange(totalPages, click.k);
    }
  }

  /** A page of the listing that has posts is never past the last page. */
  lemma ShownPageInRange<T>(posts: seq<T>, page: int)
    requires page >= 1
    requires Paging.Window(posts, Paging.Skip(page, PageLimit), PageLimit).Some?
    requires Paging.Window(posts, Paging.Skip(page, PageLimit), PageLimit).value != []
    ensures page <= Paging.Paginate(page, PageLimit, |posts|).totalPages
  {
    var t := Paging.CeilDiv(|posts|, PageLimit);
    if page > t {
      Paging.MulMono(t, page - 1, PageLimit);
    }
  }

  /** For the listing's answer to page `page`, the controls start in range,
      and Previous and Next are disabled exactly when the server reports no
      previous or no next page. */
  lemma ControlsAgreeWithPagination<T>(posts: seq<T>, page: int)
    requires page >= 1
    ensures var w := Paging.Window(posts, Paging.Skip(page, PageLimit), PageLimit);
            var p := Paging.Paginate(page, PageLimit, |posts|);
            var c := ControlsFor(page, if w.Some? then |w.value| else 0, p.totalPages);
      c.Shown? ==>
        && 1 <= page <= p.totalPages
        && (c.prevDisabled <==> !p.hasPrev)
        && (c.nextDisabled <==> !p.hasNext)
  {
    var w := Paging.Window(posts, Paging.Skip(page, PageLimit), PageLimit);
    var p := Paging.Paginate(page, PageLimit, |posts|);
    if w.Some? && w.value != [] {
      ShownPageInRange(posts, page);
      Paging.HasNextIffBeforeLastPage(page, PageLimit, |posts|);
    }
  }
}
