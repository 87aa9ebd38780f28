/** ProductList.jsx: how many cards fit on the screen, the price order of
    the fetched products and the slice that is rendered. Window sizes and
    the scroll position are parameters. */
module ProductList {
  import Api

  // ---------------------------------------------------------------------
  // calculateVisibleCount (lines 12-30)

  /** Cards per row for a window `width` pixels wide. */
  function ItemsPerRow(width: int): (n: int)
    ensures 1 <= n <= 5
    ensures width <= 200 ==> n == 1
    ensures 200 < width <= 400 ==> n == 2
    ensures 400 < width <= 800 ==> n == 3
    ensures 800 < width <= 1600 ==> n == 4
    ensures 1600 < width ==> n == 5
  {
    if width <= 200 then 1
    else if width <= 400 then 2
    else if width <= 800 then 3
    else if width <= 1600 then 4
    else 5
  }

  /** A wider window never holds fewer cards per row. */
  lemma ItemsPerRowMonotone(w1: int, w2: int)
    requires w1 <= w2
    ensures ItemsPerRow(w1) <= ItemsPerRow(w2)
  {
  }

  const ItemHeight: nat := 300

  /** `Math.ceil(height / 300)`: the number of 300-pixel rows needed to
      cover the height. */
  function RowsPerPage(height: nat): (n: nat)
    ensures (n - 1) * ItemHeight < height <= n * ItemHeight
  {
    -((-(height as int)) / ItemHeight)
  }

  function VisibleCount(width: int, height: nat): (n: nat) {
    ItemsPerRow(width) * RowsPerPage(height)
  }

  /** Any window with some height shows at least one card, and exactly as
      many as the rows needed times the cards per row; a zero height shows
      none. */
  lemma VisibleCountBounds(width: int, height: nat)
    ensures height > 0 ==> VisibleCount(width, height) >= 1
    ensures height == 0 ==> VisibleCount(width, height) == 0
    ensures VisibleCount(width, height) * ItemHeight >= ItemsPerRow(width) * height
  {
    var n := RowsPerPage(height);
    if height > 0 {
      assert n >= 1;
    }
  }

  /** `handleScroll`: near the bottom of the page, one more screenful. */
  function OnScroll(visible: nat, width: int, height: nat, scrollY: int, pageHeight: int): (r: nat)
    ensures r >= visible
    ensures height + scrollY >= pageHeight - 100 ==> r == visible + VisibleCount(width, height)
    ensures height + scrollY < pageHeight - 100 ==> r == visible
  {
    if height + scrollY >= pageHeight - 100 then visible + VisibleCount(width, height) else visible
  }

  // ---------------------------------------------------------------------
  // Sorting and slicing (lines 71-73 and 112)

  /** The comparator's key: the price, or its negation for any order
      other than "asc". */
  function Key(p: Api.ProductView, ascending: bool): real {
    if ascending then p.price else -p.price
  }

  predicate SortedBy(s: seq<Api.ProductView>, ascending: bool) {
    forall i, j :: 0 <= i < j < |s| ==> Key(s[i], ascending) <= Key(s[j], ascending)
  }

  /** Places `x` before the first entry whose key is not smaller. */
  function Insert(x: Api.ProductView, s: seq<Api.ProductView>, ascending: bool): (r: seq<Api.ProductView>)
    ensures multiset(r) == multiset(s) + multiset{x}
    ensures |r| == |s| + 1
  {
    if s == [] then [x]
    else if Key(x, ascending) <= Key(s[0], ascending) then [x] + s
    else
      assert s == [s[0]] + s[1..];
      [s[0]] + Insert(x, s[1..], ascending)
  }

  lemma {:induction false} InsertSorted(x: Api.ProductView, s: seq<Api.ProductView>, ascending: bool)
    requires SortedBy(s, ascending)
    ensures SortedBy(Insert(x, s, ascending), ascending)
  {
    if s != [] && Key(x, ascending) > Key(s[0], ascending) {
      var t := s[1..];
      assert SortedBy(t, ascending) by {
        forall i, j | 0 <= i < j < |t| ensures Key(t[i], ascending) <= Key(t[j], ascending) {
          assert t[i] == s[i + 1] && t[j] == s[j + 1];
        }
      }
      InsertSorted(x, t, ascending);
      forall k | 0 <= k < |t| ensures Key(s[0], ascending) <= Key(t[k], ascending) {
        assert t[k] == s[k + 1];
      }
      InsertAbove(x, t, ascending, Key(s[0], ascending));
      SortedCons(s[0], Insert(x, t, ascending), ascending);
    }
  }

  /** Inserting keeps every key at or above a bound that all keys meet. */
  lemma {:induction false} InsertAbove(x: Api.ProductView, s: seq<Api.ProductView>, ascending: bool, bound: real)
    requires bound <= Key(x, ascending)
    requires forall k :: 0 <= k < |s| ==> bound <= Key(s[k], ascending)
    ensures forall k :: 0 <= k < |Insert(x, s, ascending)| ==> bound <= Key(Insert(x, s, ascending)[k], ascending)
  {
    if s != [] && Key(x, ascending) > Key(s[0], ascending) {
      var t := s[1..];
      forall k | 0 <= k < |t| ensures bound <= Key(t[k], ascending) {
        assert t[k] == s[k + 1];
      }
      InsertAbove(x, t, ascending, bound);
    }
  }

  lemma SortedCons(h: Api.ProductView, s: seq<Api.ProductView>, ascending: bool)
    requires SortedBy(s, ascending)
    requires forall k :: 0 <= k < |s| ==> Key(h, ascending) <= Key(s[k], ascending)
    ensures SortedBy([h] + s, ascending)
  {
    var r := [h] + s;
    forall i, j | 0 <= i < j < |r| ensures Key(r[i], ascending) <= Key(r[j], ascending) {
      assert r[j] == s[j - 1];
      if i > 0 {
        assert r[i] == s[i - 1];
      }
    }
  }

  /** The sorted copy `[...allProducts].sort(...)`; `allProducts` itself
      is a value and stays as it was. */
  function SortByPrice(xs: seq<Api.ProductView>, sortOrder: string): (r: seq<Api.ProductView>)
    ensures multiset(r) == multiset(xs)
    ensures |r| == |xs|
  {
    if xs == [] then []
    else
      assert xs == [xs[0]] + xs[1..];
      Insert(xs[0], SortByPrice(xs[1..], sortOrder), sortOrder == "asc")
  }

  /** "asc" gives prices in non-decreasing order, anything else in
      non-increasing order; either way the same products. */
  lemma {:induction false} SortByPriceSorted(xs: seq<Api.ProductView>, sortOrder: string)
    ensures sortOrder == "asc" ==> forall i, j :: 0 <= i < j < |xs| ==>
      SortByPrice(xs, sortOrder)[i].price <= SortByPrice(xs, sortOrder)[j].price
    ensures sortOrder != "asc" ==> forall i, j :: 0 <= i < j < |xs| ==>
      SortByPrice(xs, sortOrder)[i].price >= SortByPrice(xs, sortOrder)[j].price
  {
    SortedSort(xs, sortOrder);
  }

  lemma {:induction false} SortedSort(xs: seq<Api.ProductView>, sortOrder: string)
    ensures SortedBy(SortByPrice(xs, sortOrder), sortOrder == "asc")
  {
    if xs != [] {
      SortedSort(xs[1..], sortOrder);
      InsertSorted(xs[0], SortByPrice(xs[1..], sortOrder), sortOrder == "asc");
    }
  }

  /** `xs.slice(0, n)`: a negative end counts from the back. */
  function Slice(xs: seq<Api.ProductView>, n: int): (r: seq<Api.ProductView>)
    ensures 0 <= n ==> |r| == if n < |xs| then n else |xs|
    ensures n < 0 ==> |r| == if |xs| + n > 0 then |xs| + n else 0
    ensures r == xs[..|r|]
  {
    var end := if n < 0 then (if |xs| + n > 0 then |xs| + n else 0) else if n < |xs| then n else |xs|;
    xs[..end]
  }

  /** The rendered cards. */
  function Rendered(allProducts: seq<Api.ProductView>, sortOrder: string, visibleCount: nat): seq<Api.ProductView> {
    Slice(SortByPrice(allProducts, sortOrder), visibleCount)
  }

  /** The cards rendered are the `visibleCount` cheapest (with "asc", the
      dearest otherwise) of the fetched products, all of them when fewer
      were fetched, and every card comes from the fetched list. */
  lemma RenderedCheapest(allProducts: seq<Api.ProductView>, sortOrder: string, visibleCount: nat)
    ensures var r := Rendered(allProducts, sortOrder, visibleCount);
      && |r| == (if visibleCount < |allProducts| then visibleCount else |allProducts|)
      && multiset(r) <= multiset(allProducts)
      && forall i, j :: 0 <= i < |r| && |r| <= j < |allProducts| ==>
           Key(r[i], sortOrder == "asc") <= Key(SortByPrice(allProducts, sortOrder)[j], sortOrder == "asc")
  {
    var s := SortByPrice(allProducts, sortOrder);
    var r := Rendered(allProducts, sortOrder, visibleCount);
    SortedSort(allProducts, sortOrder);
    assert r == s[..|r|];
    forall i, j | 0 <= i < |r| && |r| <= j < |allProducts|
      ensures Key(r[i], sortOrder == "asc") <= Key(s[j], sortOrder == "asc")
    {
      assert r[i] == s[i];
    }
    assert s == r + s[|r|..];
    assert multiset(s) == multiset(r) + multiset(s[|r|..]);
  }

  /** Scrolling only ever shows more of the same sorted list. */
  lemma ScrollExtendsRendered(allProducts: seq<Api.ProductView>, sortOrder: string,
                              visible: nat, width: int, height: nat, scrollY: int, pageHeight: int)
    ensures var before := Rendered(allProducts, sortOrder, visible);
      var after := Rendered(allProducts, sortOrder, OnScroll(visible, width, height, scrollY, pageHeight));
      |before| <= |after| && before == after[..|before|]
  {
  }
}
