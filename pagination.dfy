/**
 * The list paginator of app/composables/usePagination.ts: a page count,
 * a validating transform for a page number read from the URL, the
 * push/replace navigation rule, and the slice of the list on the current
 * page. The current page lives either in memory or in a named query
 * parameter of the current URL, here an in-memory map from names to
 * strings.
 */
module Pagination {
  import opened Wrappers
  import opened Strings
  import opened Ints

  /** How a write to the bound query parameter updates the browser history. */
  datatype NavMode = Push | Replace

  /** The optional settings a caller passes; `None` is an omitted option. */
  datatype Options = Options(initialPage: Option<int>, perPage: Option<int>, bindQuery: Option<string>)

  /**
   * Items per page: the option when given, else the application-wide
   * setting when it is truthy (non-zero), else 10.
   */
  function PerPageOf(o: Options, configPerPage: int): int {
    match o.perPage
    case Some(n) => n
    case None => if configPerPage != 0 then configPerPage else 10
  }

  /**
   * `Math.ceil(length / perPage) || initialPage`: the number of pages
   * needed to hold `length` items, and `initialPage` for an empty list.
   */
  function TotalPagesOf(length: nat, perPage: int, initialPage: int): (r: int)
    requires perPage > 0
    ensures length == 0 ==> r == initialPage
    ensures length > 0 ==> r >= 1 && (r - 1) * perPage < length <= r * perPage
  {
    if length == 0 then initialPage
    else
      var q := length / perPage;
      if length % perPage == 0 then q else q + 1
  }

  /**
   * The page a value read from the URL stands for: the value itself when
   * it is a number from 1 to `totalPages`, `initialPage` otherwise
   * (`None` is a value that is not a number).
   */
  function Transform(v: Option<int>, totalPages: int, initialPage: int): (r: int)
    ensures v.Some? && 1 <= v.value <= totalPages ==> r == v.value
    ensures !(v.Some? && 1 <= v.value <= totalPages) ==> r == initialPage
  {
    if v.Some? && v.value >= 1 && v.value <= totalPages then v.value else initialPage
  }

  /** Every page the transform yields is in range or is the fallback page. */
  lemma TransformInRange(v: Option<int>, totalPages: int, initialPage: int)
    ensures var r := Transform(v, totalPages, initialPage);
      (1 <= r <= totalPages) || r == initialPage
  {
  }

  /** Transforming a page that was already transformed changes nothing. */
  lemma TransformIdempotent(v: Option<int>, totalPages: int, initialPage: int)
    ensures var r := Transform(v, totalPages, initialPage);
      Transform(Some(r), totalPages, initialPage) == r
  {
  }

  /**
   * The query name the page is bound to: `bindQuery` when it is a
   * non-empty name; an absent or empty name (both falsy) binds nothing.
   */
  function BoundName(bindQuery: Option<string>): (r: Option<string>)
    ensures r.Some? <==> bindQuery.Some? && bindQuery.value != ""
    ensures r.Some? ==> r == bindQuery
  {
    if bindQuery.Some? && bindQuery.value != "" then bindQuery else None
  }

  /**
   * `replace` exactly when a non-empty query name is bound and the current
   * URL already carries a non-empty value under that name, `push` otherwise.
   */
  function ModeOf(bindQuery: Option<string>, query: map<string, string>): (m: NavMode)
    ensures m == Replace <==>
      bindQuery.Some? && bindQuery.value != "" && bindQuery.value in query && query[bindQuery.value] != ""
  {
    if bindQuery.Some? && bindQuery.value != "" && bindQuery.value in query && query[bindQuery.value] != "" then Replace
    else Push
  }

  /** An index of `Array.prototype.slice`: negative counts from the end, then clamped to the length. */
  function SliceIndex(i: int, length: nat): (r: nat)
    ensures r <= length
    ensures 0 <= i ==> r == if i <= length then i else length
    ensures i < 0 ==> r == if length + i >= 0 then length + i else 0
  {
    if i < 0 then (if length + i >= 0 then length + i else 0)
    else if i <= length then i else length
  }

  /** `s.slice(start, end)`. */
  function JsSlice<T>(s: seq<T>, start: int, end: int): (r: seq<T>)
    ensures |r| <= |s|
  {
    var from := SliceIndex(start, |s|);
    var to := SliceIndex(end, |s|);
    if from < to then s[from..to] else []
  }

  /** `list.slice((page - 1) * perPage, (page - 1) * perPage + perPage)`. */
  function PageSlice<T>(list: seq<T>, page: int, perPage: int): seq<T>
    requires perPage > 0
  {
    var start := (page - 1) * perPage;
    JsSlice(list, start, start + perPage)
  }

  /**
   * For a page from 1 on, its slice holds the items of that page in list
   * order, and nothing once the page starts past the end; page 0 is empty,
   * and a negative page takes a window counted back from the end of the
   * list. No page holds more than `perPage` items.
   */
  lemma PageSliceItems<T>(list: seq<T>, page: int, perPage: int)
    requires perPage > 0
    ensures var r, start := PageSlice(list, page, perPage), (page - 1) * perPage;
      |r| <= perPage &&
      (page >= 1 ==> r == list[Min(|list|, start)..Min(|list|, start + perPage)]) &&
      (page >= 1 && start >= |list| ==> r == []) &&
      (page == 0 ==> r == []) &&
      (page < 0 && |list| + start + perPage > 0 ==> r == list[SliceIndex(start, |list|)..|list| + start + perPage]) &&
      (page < 0 && |list| + start + perPage <= 0 ==> r == [])
  {
    PageBounds(page, perPage);
    SliceWindow(list, (page - 1) * perPage, (page - 1) * perPage + perPage);
  }

  /** The signs of the ends of a page's slice. */
  lemma PageBounds(page: int, perPage: int)
    requires perPage > 0
    ensures page >= 1 ==> (page - 1) * perPage >= 0
    ensures page == 0 ==> (page - 1) * perPage + perPage == 0
    ensures page < 0 ==> (page - 1) * perPage + perPage < 0
  {
  }

  /** `list.slice(start, end)` for a window of positive width, by the signs of its ends. */
  lemma SliceWindow<T>(list: seq<T>, start: int, end: int)
    requires start < end
    ensures |JsSlice(list, start, end)| <= end - start
    ensures 0 <= start ==> JsSlice(list, start, end) == list[Min(|list|, start)..Min(|list|, end)]
    ensures end == 0 ==> JsSlice(list, start, end) == []
    ensures end < 0 && |list| + end > 0 ==> JsSlice(list, start, end) == list[SliceIndex(start, |list|)..|list| + end]
    ensures end < 0 && |list| + end <= 0 ==> JsSlice(list, start, end) == []
  {
  }

  /** The pages 1 to `count`, concatenated in order. */
  function ConcatPages<T>(list: seq<T>, perPage: int, count: nat): seq<T>
    requires perPage > 0
  {
    if count == 0 then [] else ConcatPages(list, perPage, count - 1) + PageSlice(list, count, perPage)
  }

  lemma {:induction false} ConcatPagesPrefix<T>(list: seq<T>, perPage: int, count: nat)
    requires perPage > 0
    ensures ConcatPages(list, perPage, count) == list[..Min(|list|, count * perPage)]
  {
    if count > 0 {
      ConcatPagesPrefix(list, perPage, count - 1);
      PageSliceItems(list, count, perPage);
      var start := (count - 1) * perPage;
      NextPageStart(count, perPage);
      PrefixThenSlice(list, Min(|list|, start), Min(|list|, start + perPage));
    }
  }

  lemma NextPageStart(count: int, perPage: int)
    ensures (count - 1) * perPage + perPage == count * perPage
  {
  }

  lemma PrefixThenSlice<T>(list: seq<T>, a: nat, b: nat)
    requires a <= b <= |list|
    ensures list[..a] + list[a..b] == list[..b]
  {
  }

  /** Reading pages 1 to `totalPages` one after the other gives back the whole list, in order. */
  lemma PagesCoverList<T>(list: seq<T>, perPage: int, initialPage: int)
    requires perPage > 0 && |list| > 0
    ensures ConcatPages(list, perPage, TotalPagesOf(|list|, perPage, initialPage)) == list
  {
    var total := TotalPagesOf(|list|, perPage, initialPage);
    ConcatPagesPrefix(list, perPage, total);
    assert list[..|list|] == list;
  }

  /** Twenty-five items, ten per page: three pages, the last one holding five items; a page past the end falls back. */
  lemma TwentyFiveItems<T>(list: seq<T>)
    requires |list| == 25
    ensures TotalPagesOf(|list|, 10, 1) == 3
    ensures PageSlice(list, 1, 10) == list[..10] && PageSlice(list, 3, 10) == list[20..]
    ensures Transform(Some(7), TotalPagesOf(|list|, 10, 1), 1) == 1
  {
    PageSliceItems(list, 1, 10);
    PageSliceItems(list, 3, 10);
  }

  /** An empty list still has one page (with the default first page), and it is empty. */
  lemma EmptyList<T>(list: seq<T>)
    requires |list| == 0
    ensures TotalPagesOf(|list|, 10, 1) == 1 && PageSlice(list, 1, 10) == []
  {
    PageSliceItems(list, 1, 10);
  }

  /**
   * The paginator's state: the source list (re-read on every access), the
   * fixed options, the in-memory page used when no query parameter is
   * bound, and the query of the current URL.
   */
  class Paginator<T> {
    var list: seq<T>
    const perPage: int
    const initialPage: int
    const bindQuery: Option<string>
    var page: int
    var query: map<string, string>

    /** A positive page size, and a bound query name is never empty. */
    ghost predicate Valid()
      reads this
    {
      perPage > 0 && (bindQuery.Some? ==> bindQuery.value != "")
    }

    /** `usePagination(list, options)` with the application-wide `pagination.perPage` setting. */
    constructor (list: seq<T>, o: Options, configPerPage: int, query: map<string, string>)
      requires PerPageOf(o, configPerPage) > 0
      ensures Valid()
      ensures this.list == list && this.query == query && bindQuery == BoundName(o.bindQuery)
      ensures initialPage == o.initialPage.GetOr(1)
      ensures perPage == (if o.perPage.Some? then o.perPage.value else if configPerPage != 0 then configPerPage else 10)
      ensures page == initialPage
      ensures bindQuery.None? ==> Page() == initialPage
      ensures o.bindQuery == Some("") ==> Page() == initialPage && Mode() == Push
    {
      this.list := list;
      perPage := PerPageOf(o, configPerPage);
      initialPage := o.initialPage.GetOr(1);
      bindQuery := BoundName(o.bindQuery);
      page := o.initialPage.GetOr(1);
      this.query := query;
    }

    function TotalPages(): int
      reads this
      requires Valid()
    {
      TotalPagesOf(|list|, perPage, initialPage)
    }

    function TransformPage(v: Option<int>): int
      reads this
      requires Valid()
    {
      Transform(v, TotalPages(), initialPage)
    }

    function Mode(): NavMode
      reads this
    {
      ModeOf(bindQuery, query)
    }

    /**
     * The current page: the in-memory value when unbound; when bound, the
     * transform of the query value, or of `initialPage` when the URL has none.
     */
    function Page(): (r: int)
      reads this
      requires Valid()
      ensures bindQuery.None? ==> r == page
      ensures bindQuery.Some? ==> 1 <= r <= TotalPages() || r == initialPage
      ensures bindQuery.Some? && bindQuery.value !in query ==> r == initialPage
      ensures bindQuery.Some? && bindQuery.value in query ==>
        match ParseInt(query[bindQuery.value])
        case Some(n) => (1 <= n <= TotalPages() ==> r == n) && (!(1 <= n <= TotalPages()) ==> r == initialPage)
        case None => r == initialPage
    {
      match bindQuery
      case None => page
      case Some(name) =>
        TransformPage(if name in query then ParseInt(query[name]) else Some(initialPage))
    }

    /** The items on the current page, in list order; no more than `perPage` of them. */
    function ListPaged(): (r: seq<T>)
      reads this
      requires Valid()
      ensures |r| <= perPage
      ensures var p := Page(); var start := (p - 1) * perPage;
        p >= 1 ==> r == list[Min(|list|, start)..Min(|list|, start + perPage)]
      ensures Page() == 0 ==> r == []
    {
      PageSliceItems(list, Page(), perPage);
      PageSlice(list, Page(), perPage)
    }

    /**
     * `page.value = v`. Unbound, the value is stored as it is; bound, its
     * decimal string is written to the query under the bound name with the
     * navigation mode in force before the write, which is returned.
     */
    method SetPage(v: int) returns (nav: Option<NavMode>)
      requires Valid()
      modifies this
      ensures Valid() && list == old(list)
      ensures bindQuery.None? ==> page == v && query == old(query) && nav == None
      ensures bindQuery.Some? ==>
        query == old(query)[bindQuery.value := IntToString(v)] && page == old(page) && nav == Some(old(Mode()))
      ensures bindQuery.None? ==> Page() == v
      ensures bindQuery.Some? ==> Page() == TransformPage(Some(v))
      ensures bindQuery.Some? ==> Mode() == Replace
    {
      match bindQuery
      case None =>
        page := v;
        nav := None;
      case Some(name) =>
        nav := Some(Mode());
        query := query[name := IntToString(v)];
        ParseIntToString(v);
    }

    /** The source list changed; every derived value is recomputed from the new one. */
    method SetList(newList: seq<T>)
      requires Valid()
      modifies this`list
      ensures Valid() && list == newList
    {
      list := newList;
    }

    /** The URL changed outside the paginator (an edited address, back or forward). */
    method Navigate(newQuery: map<string, string>)
      requires Valid()
      modifies this`query
      ensures Valid() && query == newQuery
    {
      query := newQuery;
    }

    /** The setter of `mode` does nothing. */
    method SetMode(m: NavMode)
      ensures Mode() == old(Mode())
    {
    }
  }

  /**
   * A page bound to `page` in a URL without it: the first write pushes a
   * history entry, later writes replace it.
   */
  method BoundPageHistory()
  {
    var list := seq(25, i => i);
    var p := new Paginator<int>(list, Options(None, Some(10), Some("page")), 0, map[]);
    assert p.Mode() == Push;
    var first := p.SetPage(2);
    assert first == Some(Push) && p.Page() == 2;
    var second := p.SetPage(3);
    assert second == Some(Replace) && p.Page() == 3;
    PageSliceItems(list, 3, 10);
    assert p.ListPaged() == list[20..25];
  }

  /**
   * An empty `bindQuery` binds nothing: the page stays in memory, ignores
   * a query value under the empty name, and navigation always pushes.
   */
  method EmptyBindQuery()
  {
    var list := seq(25, i => i);
    var p := new Paginator<int>(list, Options(None, Some(10), Some("")), 0, map["" := "3"]);
    assert p.bindQuery == None && p.Page() == 1 && p.Mode() == Push;
    var nav := p.SetPage(2);
    assert nav == None && p.Page() == 2 && p.query == map["" := "3"];
  }
}
