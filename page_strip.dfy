/**
 * The page-number strip of app/utils/index.ts (`genPageArr`): the pages
 * within `expand` of the current page, page 1 and an ellipsis marker in
 * front when the window does not reach page 1, an ellipsis marker and the
 * last page behind when it does not reach the last page, and finally the
 * removal of repeated entries through a `Set`.
 */
module PageStrip {
  import opened Ints

  /** A button of the strip: a page number, or the `…` marker (`Infinity` in the source). */
  datatype Entry = Page(n: int) | Ellipsis

  /** The first page of the window around `current`. */
  function Left(current: int, expand: int): int {
    Max(1, current - expand)
  }

  /** The last page of the window around `current`. */
  function Right(current: int, total: int, expand: int): int {
    Min(total, current + expand)
  }

  /** The pages `lo`, `lo + 1`, ..., `hi - 1`, in that order. */
  function Run(lo: int, hi: int): seq<Entry>
    decreases hi - lo
  {
    if hi <= lo then [] else Run(lo, hi - 1) + [Page(hi - 1)]
  }

  /** `[1, Infinity]` when the window does not start at page 1. */
  function Head(current: int, expand: int): seq<Entry> {
    if Left(current, expand) > 1 then [Page(1), Ellipsis] else []
  }

  /** The array the source builds before the `Set` pass. */
  function RawStrip(current: int, total: int, expand: int): seq<Entry> {
    Head(current, expand)
      + Run(Left(current, expand), Right(current, total, expand) + 1)
      + (if Right(current, total, expand) < total then [Ellipsis, Page(total)] else [])
  }

  /** `[...new Set(s)]` with `seen` already in the set: first occurrences, in order. */
  function DedupFrom(s: seq<Entry>, seen: set<Entry>): seq<Entry> {
    if s == [] then []
    else if s[0] in seen then DedupFrom(s[1..], seen)
    else [s[0]] + DedupFrom(s[1..], seen + {s[0]})
  }

  function Dedup(s: seq<Entry>): seq<Entry> {
    DedupFrom(s, {})
  }

  function Elems(s: seq<Entry>): set<Entry> {
    set x | x in s
  }

  predicate Distinct(s: seq<Entry>) {
    forall i, j :: 0 <= i < j < |s| ==> s[i] != s[j]
  }

  /** The page numbers of `s` grow strictly from left to right. */
  predicate PagesIncreasing(s: seq<Entry>) {
    forall i, j :: 0 <= i < j < |s| && s[i].Page? && s[j].Page? ==> s[i].n < s[j].n
  }

  /** Two page buttons side by side are always consecutive pages: every gap is marked. */
  predicate GapsMarked(s: seq<Entry>) {
    forall i :: 0 <= i < |s| - 1 && s[i].Page? && s[i + 1].Page? ==> s[i + 1].n == s[i].n + 1
  }

  /** The array of the source up to, not including, the `Set` pass. */
  method BuildPageArr(current: int, total: int, expand: int) returns (arr: seq<Entry>)
    ensures arr == RawStrip(current, total, expand)
  {
    arr := [];
    var left := Max(1, current - expand);
    var right := Min(total, current + expand);
    var i := left;
    while i <= right
      invariant left <= i <= Max(left, right + 1)
      invariant arr == Run(left, i)
      decreases right + 1 - i
    {
      arr := arr + [Page(i)];
      i := i + 1;
    }
    if left > 1 {
      arr := [Page(1), Ellipsis] + arr;
    }
    if right < total {
      arr := arr + [Ellipsis, Page(total)];
    }
  }

  /** `[...new Set(arr)]`. */
  method DistinctEntries(arr: seq<Entry>) returns (r: seq<Entry>)
    ensures r == Dedup(arr)
  {
    r := [];
    var seen: set<Entry> := {};
    var k := 0;
    while k < |arr|
      invariant 0 <= k <= |arr|
      invariant r + DedupFrom(arr[k..], seen) == Dedup(arr)
    {
      assert arr[k..][1..] == arr[k + 1..];
      if arr[k] !in seen {
        r := r + [arr[k]];
        seen := seen + {arr[k]};
      }
      k := k + 1;
    }
  }

  /** `genPageArr(current, total, expand = 2)`. */
  method GenPageArr(current: int, total: int, expand: int := 2) returns (r: seq<Entry>)
    ensures r == Dedup(RawStrip(current, total, expand))
    ensures Distinct(r)
  {
    var arr := BuildPageArr(current, total, expand);
    r := DistinctEntries(arr);
    DedupDistinct(arr, {});
  }

  lemma {:induction false} RunAt(lo: int, hi: int)
    ensures |Run(lo, hi)| == (if hi <= lo then 0 else hi - lo)
    ensures forall j :: 0 <= j < |Run(lo, hi)| ==> Run(lo, hi)[j] == Page(lo + j)
    decreases hi - lo
  {
    if hi > lo {
      RunAt(lo, hi - 1);
    }
  }

  lemma RunMembers(lo: int, hi: int)
    ensures forall x :: x in Run(lo, hi) <==> x.Page? && lo <= x.n < hi
  {
    RunAt(lo, hi);
    forall x: Entry | x.Page? && lo <= x.n < hi
      ensures x in Run(lo, hi)
    {
      assert Run(lo, hi)[x.n - lo] == x;
    }
  }

  lemma {:induction false} DedupDistinct(s: seq<Entry>, seen: set<Entry>)
    ensures Distinct(DedupFrom(s, seen))
    ensures forall x :: x in DedupFrom(s, seen) ==> x in s && x !in seen
  {
    if s != [] {
      DedupDistinct(s[1..], seen + {s[0]});
      DedupDistinct(s[1..], seen);
    }
  }

  lemma {:induction false} DedupAppend(a: seq<Entry>, b: seq<Entry>, seen: set<Entry>)
    ensures DedupFrom(a + b, seen) == DedupFrom(a, seen) + DedupFrom(b, seen + set x | x in a)
  {
    if a == [] {
      assert a + b == b;
      assert seen + (set x | x in a) == seen;
    } else {
      assert (a + b)[1..] == a[1..] + b;
      var rest := set x | x in a[1..];
      assert (set x | x in a) == {a[0]} + rest;
      if a[0] in seen {
        DedupAppend(a[1..], b, seen);
        assert seen + rest == seen + set x | x in a;
      } else {
        DedupAppend(a[1..], b, seen + {a[0]});
        assert seen + {a[0]} + rest == seen + set x | x in a;
      }
    }
  }

  lemma {:induction false} DedupOfDistinct(s: seq<Entry>, seen: set<Entry>)
    requires Distinct(s)
    requires forall x :: x in s ==> x !in seen
    ensures DedupFrom(s, seen) == s
  {
    if s != [] {
      assert forall x :: x in s[1..] ==> x !in seen + {s[0]};
      DedupOfDistinct(s[1..], seen + {s[0]});
    }
  }

  /** The entries after the window once the `Set` pass has run. */
  function Tail(current: int, total: int, expand: int): seq<Entry> {
    if Right(current, total, expand) < total then
      if Left(current, expand) > 1 then (if total == 1 then [] else [Page(total)])
      else [Ellipsis, Page(total)]
    else []
  }

  /** Page 1 and the marker in front, then the window: no entry twice. */
  lemma FrontDistinct(current: int, expand: int, hi: int)
    ensures Distinct(Head(current, expand) + Run(Left(current, expand), hi))
  {
    var head, run := Head(current, expand), Run(Left(current, expand), hi);
    var a := head + run;
    RunAt(Left(current, expand), hi);
    forall i, j | 0 <= i < j < |a|
      ensures a[i] != a[j]
    {
      if j >= |head| && i < |head| {
        assert a[j] == run[j - |head|];
      } else if i >= |head| {
        assert a[i] == run[i - |head|] && a[j] == run[j - |head|];
      }
    }
  }

  /** The `Set` pass on the back entries, given what is already in the set. */
  lemma BackDedup(current: int, total: int, expand: int, seen: set<Entry>)
    requires Right(current, total, expand) < total
    requires Ellipsis in seen <==> Left(current, expand) > 1
    requires Page(total) in seen <==> Left(current, expand) > 1 && total == 1
    ensures DedupFrom([Ellipsis, Page(total)], seen) == Tail(current, total, expand)
  {
    var b := [Ellipsis, Page(total)];
    assert b[1..] == [Page(total)] && [Page(total)][1..] == [];
    if Left(current, expand) > 1 {
      assert DedupFrom(b, seen) == DedupFrom([Page(total)], seen);
    } else {
      assert Page(total) !in seen + {Ellipsis};
      assert DedupFrom([Page(total)], seen + {Ellipsis}) == [Page(total)];
      assert DedupFrom(b, seen) == [Ellipsis] + DedupFrom([Page(total)], seen + {Ellipsis});
    }
  }

  /** Which back entries are already among page 1, the marker and the window. */
  lemma FrontMembers(current: int, total: int, expand: int)
    requires Right(current, total, expand) < total
    ensures var front := Elems(Head(current, expand) + Run(Left(current, expand), Right(current, total, expand) + 1));
      (Ellipsis in front <==> Left(current, expand) > 1) &&
      (Page(total) in front <==> Left(current, expand) > 1 && total == 1)
  {
    RunMembers(Left(current, expand), Right(current, total, expand) + 1);
  }

  /**
   * What the `Set` pass leaves: page 1 and the marker in front when the
   * window starts after page 1, the window, and behind it the last page,
   * preceded by a marker only when no marker was put in front.
   */
  lemma StripShape(current: int, total: int, expand: int)
    ensures Dedup(RawStrip(current, total, expand))
      == Head(current, expand)
         + Run(Left(current, expand), Right(current, total, expand) + 1)
         + Tail(current, total, expand)
  {
    var left, right := Left(current, expand), Right(current, total, expand);
    var a := Head(current, expand) + Run(left, right + 1);
    FrontDistinct(current, expand, right + 1);
    DedupOfDistinct(a, {});
    var b := if right < total then [Ellipsis, Page(total)] else [];
    assert RawStrip(current, total, expand) == a + b;
    DedupAppend(a, b, {});
    if right < total {
      FrontMembers(current, total, expand);
      assert {} + (set x | x in a) == set x | x in a;
      BackDedup(current, total, expand, Elems(a));
    } else {
      assert DedupFrom(b, {} + set x | x in a) == [];
    }
  }

  /** The `Set` pass leaves no entry twice, so at most one marker. */
  lemma StripDistinct(current: int, total: int, expand: int)
    ensures var g := Dedup(RawStrip(current, total, expand));
      Distinct(g) && forall i, j :: 0 <= i < j < |g| && g[i] == Ellipsis ==> g[j] != Ellipsis
  {
    DedupDistinct(RawStrip(current, total, expand), {});
  }

  /** Every page of the window appears, consecutive and ascending, right after the front entries. */
  lemma StripShowsWindow(current: int, total: int, expand: int)
    ensures var g, left, right := Dedup(RawStrip(current, total, expand)), Left(current, expand), Right(current, total, expand);
      var off := |Head(current, expand)|;
      off + Max(0, right - left + 1) <= |g| &&
      forall k :: off <= k <= off + right - left ==> g[k] == Page(left + k - off)
  {
    StripShape(current, total, expand);
    RunAt(Left(current, expand), Right(current, total, expand) + 1);
  }

  /** When the window starts after page 1, the strip starts with page 1 and a marker. */
  lemma StripFront(current: int, total: int, expand: int)
    requires Left(current, expand) > 1
    ensures var g := Dedup(RawStrip(current, total, expand));
      |g| >= 2 && g[0] == Page(1) && g[1] == Ellipsis
  {
    StripShape(current, total, expand);
  }

  /**
   * When the window stops before the last page, the strip ends with the
   * last page; the marker before it is there only when no marker is in
   * front, because the `Set` pass drops a second marker.
   */
  lemma StripBack(current: int, total: int, expand: int)
    requires expand >= 0 && Right(current, total, expand) < total
    ensures var g := Dedup(RawStrip(current, total, expand));
      |g| >= 2 && g[|g| - 1] == Page(total) &&
      (g[|g| - 2] == Ellipsis <==> Left(current, expand) <= 1)
  {
    var left, right := Left(current, expand), Right(current, total, expand);
    StripShape(current, total, expand);
    RunAt(left, right + 1);
    var g := Dedup(RawStrip(current, total, expand));
    if left > 1 {
      var run := Run(left, right + 1);
      assert |run| > 0;
      assert g == [Page(1), Ellipsis] + run + [Page(total)];
      assert g[|g| - 2] == run[|run| - 1];
    }
  }

  lemma {:induction false} IncreasingAppend(a: seq<Entry>, b: seq<Entry>)
    requires PagesIncreasing(a) && PagesIncreasing(b)
    requires forall i, j :: 0 <= i < |a| && 0 <= j < |b| && a[i].Page? && b[j].Page? ==> a[i].n < b[j].n
    ensures PagesIncreasing(a + b)
  {
    var s := a + b;
    forall i, j | 0 <= i < j < |s| && s[i].Page? && s[j].Page?
      ensures s[i].n < s[j].n
    {
      if j < |a| {
        assert s[i] == a[i] && s[j] == a[j];
      } else if i >= |a| {
        assert s[i] == b[i - |a|] && s[j] == b[j - |a|];
      } else {
        assert s[i] == a[i] && s[j] == b[j - |a|];
      }
    }
  }

  /** For a positive page count, the page numbers of the strip grow strictly. */
  lemma StripIncreasing(current: int, total: int, expand: int)
    requires total >= 1
    ensures PagesIncreasing(Dedup(RawStrip(current, total, expand)))
  {
    var left, right := Left(current, expand), Right(current, total, expand);
    var head, run, tail := Head(current, expand), Run(left, right + 1), Tail(current, total, expand);
    StripShape(current, total, expand);
    RunAt(left, right + 1);
    IncreasingAppend(head, run);
    IncreasingAppend(head + run, tail);
  }

  /** With a non-negative `expand`, the strip holds at most `2 * expand + 4` entries. */
  lemma StripLength(current: int, total: int, expand: int)
    requires expand >= 0
    ensures |Dedup(RawStrip(current, total, expand))| <= 2 * expand + 4
  {
    StripShape(current, total, expand);
    RunAt(Left(current, expand), Right(current, total, expand) + 1);
  }

  /** Page 10 of 20: the source shows `1 … 8 9 10 11 12 20`, with no marker between 12 and 20. */
  lemma StripHidesRightGap()
    ensures Dedup(RawStrip(10, 20, 2)) == [Page(1), Ellipsis, Page(8), Page(9), Page(10), Page(11), Page(12), Page(20)]
    ensures !GapsMarked(Dedup(RawStrip(10, 20, 2)))
  {
    StripShape(10, 20, 2);
    assert Run(8, 13) == [Page(8), Page(9), Page(10), Page(11), Page(12)];
    var g := Dedup(RawStrip(10, 20, 2));
    assert g[6].Page? && g[7].Page? && g[7].n != g[6].n + 1;
  }

  /** `[...new Set(s)]` applied to page numbers only: every marker is kept. */
  function DedupPagesFrom(s: seq<Entry>, seen: set<int>): seq<Entry> {
    if s == [] then []
    else if s[0].Ellipsis? then [Ellipsis] + DedupPagesFrom(s[1..], seen)
    else if s[0].n in seen then DedupPagesFrom(s[1..], seen)
    else [s[0]] + DedupPagesFrom(s[1..], seen + {s[0].n})
  }

  /** Drops repeated page numbers and keeps every marker. */
  method DistinctPages(arr: seq<Entry>) returns (r: seq<Entry>)
    ensures r == DedupPagesFrom(arr, {})
  {
    r := [];
    var seen: set<int> := {};
    var k := 0;
    while k < |arr|
      invariant 0 <= k <= |arr|
      invariant r + DedupPagesFrom(arr[k..], seen) == DedupPagesFrom(arr, {})
    {
      assert arr[k..][1..] == arr[k + 1..];
      if arr[k].Ellipsis? {
        r := r + [Ellipsis];
      } else if arr[k].n !in seen {
        r := r + [arr[k]];
        seen := seen + {arr[k].n};
      }
      k := k + 1;
    }
  }

  /**
   * The strip as evidently intended: repeated page numbers are dropped but
   * both markers stay, so every gap between two shown pages is marked.
   */
  method GenPageArrMarked(current: int, total: int, expand: int := 2) returns (r: seq<Entry>)
    requires expand >= 0
    ensures r == RawStrip(current, total, expand)
    ensures GapsMarked(r) && PagesIncreasing(r)
    ensures Right(current, total, expand) < total ==> |r| >= 2 && r[|r| - 2] == Ellipsis && r[|r| - 1] == Page(total)
  {
    var arr := BuildPageArr(current, total, expand);
    r := DistinctPages(arr);
    RawStripMarked(current, total, expand);
  }

  lemma {:induction false} DedupPagesOfIncreasing(s: seq<Entry>, seen: set<int>)
    requires PagesIncreasing(s)
    requires forall i :: 0 <= i < |s| && s[i].Page? ==> s[i].n !in seen
    ensures DedupPagesFrom(s, seen) == s
  {
    if s != [] {
      if s[0].Page? {
        assert forall i :: 0 <= i < |s[1..]| && s[1..][i].Page? ==> s[1..][i].n !in seen + {s[0].n} by {
          forall i | 0 <= i < |s[1..]| && s[1..][i].Page?
            ensures s[1..][i].n !in seen + {s[0].n}
          {
            assert s[1..][i] == s[i + 1];
          }
        }
        DedupPagesOfIncreasing(s[1..], seen + {s[0].n});
      } else {
        DedupPagesOfIncreasing(s[1..], seen);
      }
    }
  }

  /** Each page of a run is followed by the next page. */
  lemma RunConsecutive(lo: int, hi: int)
    ensures forall j :: 0 <= j < |Run(lo, hi)| - 1 ==> Run(lo, hi)[j].Page? && Run(lo, hi)[j + 1] == Page(Run(lo, hi)[j].n + 1)
  {
    RunAt(lo, hi);
  }

  /** With a non-negative `expand` the raw array has strictly increasing pages. */
  lemma RawStripIncreasing(current: int, total: int, expand: int)
    requires expand >= 0
    ensures PagesIncreasing(RawStrip(current, total, expand))
  {
    var left, right := Left(current, expand), Right(current, total, expand);
    var head, run := Head(current, expand), Run(left, right + 1);
    var back := if right < total then [Ellipsis, Page(total)] else [];
    RunAt(left, right + 1);
    IncreasingAppend(head, run);
    IncreasingAppend(head + run, back);
  }

  /** With a non-negative `expand` the raw array repeats no page, marks every gap and grows strictly. */
  lemma RawStripMarked(current: int, total: int, expand: int)
    requires expand >= 0
    ensures DedupPagesFrom(RawStrip(current, total, expand), {}) == RawStrip(current, total, expand)
    ensures GapsMarked(RawStrip(current, total, expand)) && PagesIncreasing(RawStrip(current, total, expand))
  {
    var left, right := Left(current, expand), Right(current, total, expand);
    RawStripIncreasing(current, total, expand);
    DedupPagesOfIncreasing(RawStrip(current, total, expand), {});
    RunConsecutive(left, right + 1);
    MarkersAround(Head(current, expand), Run(left, right + 1), if right < total then [Ellipsis, Page(total)] else []);
  }

  /** A run of consecutive pages with a marker (or nothing) on each side marks every gap. */
  lemma MarkersAround(head: seq<Entry>, run: seq<Entry>, back: seq<Entry>)
    requires head == [] || head == [Page(1), Ellipsis]
    requires back == [] || (|back| == 2 && back[0] == Ellipsis)
    requires forall j :: 0 <= j < |run| - 1 ==> run[j].Page? && run[j + 1] == Page(run[j].n + 1)
    ensures GapsMarked(head + run + back)
  {
    var s := head + run + back;
    forall i | 0 <= i < |s| - 1 && s[i].Page? && s[i + 1].Page?
      ensures s[i + 1].n == s[i].n + 1
    {
      assert |head| <= i && i + 1 < |head| + |run|;
      assert s[i] == run[i - |head|] && s[i + 1] == run[i + 1 - |head|];
    }
  }
}
