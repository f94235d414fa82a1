/** Splitting the ordered categories into pages of `pageSize` categories
    (script.js:296-316). */
module Pagination {
  import opened Seqs
  import opened Sorting
  import opened Aggregation

  /** An entry of `pagesMeta`: the 1-based range of categories the page shows,
      those categories and their records. */
  datatype Page = Page(start: nat, end: nat, categories: seq<string>, data: seq<Shown>)

  function Min(a: int, b: int): int {
    if a <= b then a else b
  }

  lemma MulMonotone(a: nat, b: nat, m: nat)
    requires a <= b
    ensures a * m <= b * m
  {
    assert b * m - a * m == (b - a) * m;
  }

  /** `Math.ceil(total / pageSize)`: the fewest pages that hold `total` categories. */
  function PageCount(total: nat, pageSize: nat): (k: nat)
    requires pageSize >= 1
    ensures total <= k * pageSize
    ensures k > 0 ==> (k - 1) * pageSize < total
    ensures k == 0 <==> total == 0
  {
    var k := (total + pageSize - 1) / pageSize;
    var r := (total + pageSize - 1) % pageSize;
    assert total + pageSize - 1 == k * pageSize + r;
    assert (k - 1) * pageSize == k * pageSize - pageSize;
    k
  }

  /** `processedData.filter(item => pageCategories.includes(item.category))`. */
  function OfCategories(data: seq<Shown>, cats: seq<string>): seq<Shown> {
    if |data| == 0 then []
    else
      var last := data[|data| - 1];
      OfCategories(data[..|data| - 1], cats) + if last.rec.category in cats then [last] else []
  }

  /** Filtering a concatenation filters each part. */
  lemma {:induction false} OfCategoriesAppend(a: seq<Shown>, b: seq<Shown>, cats: seq<string>)
    ensures OfCategories(a + b, cats) == OfCategories(a, cats) + OfCategories(b, cats)
    decreases |b|
  {
    if |b| == 0 {
      assert a + b == a;
    } else {
      var init := b[..|b| - 1];
      assert (a + b)[..|a + b| - 1] == a + init;
      OfCategoriesAppend(a, init, cats);
    }
  }

  /** A single record is kept exactly when its category is on the page. */
  lemma OfCategoriesOne(x: Shown, cats: seq<string>)
    ensures OfCategories([x], cats) == if x.rec.category in cats then [x] else []
  {
    assert [x][..0] == [];
  }

  lemma {:induction false} OfCategoriesNone(data: seq<Shown>)
    ensures OfCategories(data, []) == []
  {
    if |data| > 0 {
      OfCategoriesNone(data[..|data| - 1]);
    }
  }

  /** A page's records are exactly the records of its categories. */
  lemma {:induction false} OfCategoriesMembers(data: seq<Shown>, cats: seq<string>)
    ensures forall x :: x in OfCategories(data, cats) <==> x in data && x.rec.category in cats
  {
    if |data| > 0 {
      var init := data[..|data| - 1];
      OfCategoriesMembers(init, cats);
      assert data == init + [data[|data| - 1]];
    }
  }

  /** Page `p` (0-based) covers the categories `[p * pageSize, min((p + 1) * pageSize, n))`. */
  function PageAt(sorted: seq<string>, data: seq<Shown>, pageSize: nat, p: nat): Page
    requires pageSize >= 1 && p < PageCount(|sorted|, pageSize)
  {
    MulMonotone(p, PageCount(|sorted|, pageSize) - 1, pageSize);
    var startIdx := p * pageSize;
    var endIdx := Min(startIdx + pageSize, |sorted|);
    Page(startIdx + 1, endIdx, sorted[startIdx..endIdx], OfCategories(data, sorted[startIdx..endIdx]))
  }

  function Pages(sorted: seq<string>, data: seq<Shown>, pageSize: nat): (pages: seq<Page>)
    requires pageSize >= 1
    ensures |pages| == PageCount(|sorted|, pageSize)
  {
    seq(PageCount(|sorted|, pageSize), p requires 0 <= p < PageCount(|sorted|, pageSize) => PageAt(sorted, data, pageSize, p))
  }

  /** The page loop, pushing one entry of `pagesMeta` per page. */
  method Paginate(sorted: seq<string>, data: seq<Shown>, pageSize: nat) returns (pages: seq<Page>)
    requires pageSize >= 1
    ensures pages == Pages(sorted, data, pageSize)
  {
    var totalCategories := |sorted|;
    var totalPages := (totalCategories + pageSize - 1) / pageSize;
    assert totalPages == PageCount(totalCategories, pageSize);
    pages := [];
    for page := 0 to totalPages
      invariant pages == Pages(sorted, data, pageSize)[..page]
    {
      MulMonotone(page, totalPages - 1, pageSize);
      var startIdx := page * pageSize;
      var endIdx := Min(startIdx + pageSize, totalCategories);
      var pageCategories := sorted[startIdx..endIdx];
      var pageData := OfCategories(data, pageCategories);
      pages := pages + [Page(startIdx + 1, endIdx, pageCategories, pageData)];
    }
  }

  /** Every page is non-empty, holds at most `pageSize` categories, and each
      starts right after the previous one ends; together they run from 1 to n. */
  lemma PagesTile(sorted: seq<string>, data: seq<Shown>, pageSize: nat)
    requires pageSize >= 1
    ensures var pages := Pages(sorted, data, pageSize);
            && (|pages| > 0 ==> pages[0].start == 1 && pages[|pages| - 1].end == |sorted|)
            && (forall p :: 0 <= p < |pages| ==>
                  1 <= pages[p].start <= pages[p].end <= |sorted| && pages[p].end - pages[p].start < pageSize
                  && |pages[p].categories| == pages[p].end - pages[p].start + 1)
            && (forall p :: 0 <= p < |pages| - 1 ==> pages[p + 1].start == pages[p].end + 1)
  {
    var pages := Pages(sorted, data, pageSize);
    var k := |pages|;
    forall p | 0 <= p < k
      ensures 1 <= pages[p].start <= pages[p].end <= |sorted| && pages[p].end - pages[p].start < pageSize
      ensures |pages[p].categories| == pages[p].end - pages[p].start + 1
    {
      PageBounds(sorted, data, pageSize, p);
    }
    forall p | 0 <= p < k - 1 ensures pages[p + 1].start == pages[p].end + 1 {
      PageBounds(sorted, data, pageSize, p);
      PageBounds(sorted, data, pageSize, p + 1);
      MulMonotone(p + 1, k - 1, pageSize);
    }
    if k > 0 {
      PageBounds(sorted, data, pageSize, 0);
      PageBounds(sorted, data, pageSize, k - 1);
    }
  }

  /** Page `p` starts after `p` full pages and ends a page later or at the
      last category, whichever comes first. */
  lemma PageBounds(sorted: seq<string>, data: seq<Shown>, pageSize: nat, p: nat)
    requires pageSize >= 1 && p < PageCount(|sorted|, pageSize)
    ensures var pg := PageAt(sorted, data, pageSize, p);
            && pg.start == p * pageSize + 1
            && pg.end == Min((p + 1) * pageSize, |sorted|)
            && 1 <= pg.start <= pg.end <= |sorted| && pg.end - pg.start < pageSize
            && |pg.categories| == pg.end - pg.start + 1
            && (p + 1 == PageCount(|sorted|, pageSize) ==> pg.end == |sorted|)
  {
    MulMonotone(p, PageCount(|sorted|, pageSize) - 1, pageSize);
    assert (p + 1) * pageSize == p * pageSize + pageSize;
  }

  function CategoriesOf(pages: seq<Page>): (r: seq<seq<string>>)
    ensures |r| == |pages|
  {
    seq(|pages|, i requires 0 <= i < |pages| => pages[i].categories)
  }

  function DataOf(pages: seq<Page>): (r: seq<seq<Shown>>)
    ensures |r| == |pages|
  {
    seq(|pages|, i requires 0 <= i < |pages| => pages[i].data)
  }

  /** `p * pageSize`, counted up one page at a time. */
  function Offset(p: nat, pageSize: nat): (lo: nat)
    ensures lo == p * pageSize
  {
    if p == 0 then 0 else Offset(p - 1, pageSize) + pageSize
  }

  lemma PageSlice(sorted: seq<string>, data: seq<Shown>, pageSize: nat, p: nat)
    requires pageSize >= 1 && p < PageCount(|sorted|, pageSize)
    ensures Offset(p, pageSize) < |sorted|
    ensures var lo := Offset(p, pageSize);
            var pg := Pages(sorted, data, pageSize)[p];
            pg.categories == sorted[lo..Min(lo + pageSize, |sorted|)]
            && pg.data == OfCategories(data, pg.categories)
  {
    MulMonotone(p, PageCount(|sorted|, pageSize) - 1, pageSize);
  }

  lemma PagesPrefix(sorted: seq<string>, data: seq<Shown>, pageSize: nat, p: nat)
    requires pageSize >= 1 && p <= PageCount(|sorted|, pageSize)
    ensures Concat(CategoriesOf(Pages(sorted, data, pageSize)[..p])) == sorted[..Min(Offset(p, pageSize), |sorted|)]
  {
    var pages := Pages(sorted, data, pageSize);
    var css := CategoriesOf(pages);
    forall q | 0 <= q < p
      ensures Offset(q, pageSize) < |sorted|
      ensures css[q] == sorted[Offset(q, pageSize)..Min(Offset(q, pageSize) + pageSize, |sorted|)]
    {
      PageSlice(sorted, data, pageSize, q);
      assert css[q] == pages[q].categories;
    }
    SlicesConcat(sorted, css, pageSize, p);
    CategoriesOfPrefix(pages, p);
  }

  lemma CategoriesOfPrefix(pages: seq<Page>, p: nat)
    requires p <= |pages|
    ensures CategoriesOf(pages[..p]) == CategoriesOf(pages)[..p]
  {
  }

  /** Consecutive slices of `pageSize` categories, read in order, give a prefix. */
  lemma {:induction false} SlicesConcat(sorted: seq<string>, css: seq<seq<string>>, pageSize: nat, p: nat)
    requires p <= |css|
    requires forall q {:trigger css[q]} :: 0 <= q < p ==>
               Offset(q, pageSize) < |sorted|
               && css[q] == sorted[Offset(q, pageSize)..Min(Offset(q, pageSize) + pageSize, |sorted|)]
    ensures Concat(css[..p]) == sorted[..Min(Offset(p, pageSize), |sorted|)]
  {
    if p > 0 {
      var last := css[p - 1];
      var lo := Offset(p - 1, pageSize);
      var hi := Min(lo + pageSize, |sorted|);
      assert lo < |sorted| && last == sorted[lo..hi];
      SlicesConcat(sorted, css, pageSize, p - 1);
      assert Offset(p, pageSize) == lo + pageSize;
      ConcatPrefixStep(css, p);
      PrefixJoin(sorted, lo, hi);
    }
  }

  /** The pages partition the ordered categories: read one after another they
      give back the whole ordered list. */
  lemma PagesPartition(sorted: seq<string>, data: seq<Shown>, pageSize: nat)
    requires pageSize >= 1
    ensures Concat(CategoriesOf(Pages(sorted, data, pageSize))) == sorted
  {
    var k := PageCount(|sorted|, pageSize);
    PagesPrefix(sorted, data, pageSize, k);
    assert Pages(sorted, data, pageSize)[..k] == Pages(sorted, data, pageSize);
    assert Offset(k, pageSize) >= |sorted|;
  }

  lemma {:induction false} OfCategoriesSplit(data: seq<Shown>, a: seq<string>, b: seq<string>)
    requires forall c :: c in a ==> c !in b
    ensures multiset(OfCategories(data, a + b)) == multiset(OfCategories(data, a)) + multiset(OfCategories(data, b))
  {
    if |data| > 0 {
      OfCategoriesSplit(data[..|data| - 1], a, b);
    }
  }

  lemma {:induction false} OfCategoriesAll(data: seq<Shown>, cats: seq<string>)
    requires forall i :: 0 <= i < |data| ==> data[i].rec.category in cats
    ensures OfCategories(data, cats) == data
  {
    if |data| > 0 {
      var init := data[..|data| - 1];
      OfCategoriesAll(init, cats);
      assert data[|data| - 1].rec.category in cats;
      assert init + [data[|data| - 1]] == data;
    }
  }

  lemma NoDupPrefix(a: seq<string>, b: seq<string>)
    requires NoDup(a + b)
    ensures NoDup(a)
    ensures forall c :: c in a ==> c !in b
  {
    assert forall i :: 0 <= i < |a| ==> (a + b)[i] == a[i];
    assert forall j :: 0 <= j < |b| ==> (a + b)[|a| + j] == b[j];
  }

  /** When each page's records are the records of its categories, the pages'
      records together are the records of all their categories. */
  lemma {:induction false} DataFollowsCategories(pages: seq<Page>, data: seq<Shown>)
    requires forall q :: 0 <= q < |pages| ==> pages[q].data == OfCategories(data, pages[q].categories)
    requires NoDup(Concat(CategoriesOf(pages)))
    ensures multiset(Concat(DataOf(pages))) == multiset(OfCategories(data, Concat(CategoriesOf(pages))))
  {
    if |pages| == 0 {
      OfCategoriesNone(data);
    } else {
      var init := pages[..|pages| - 1];
      var last := pages[|pages| - 1];
      assert CategoriesOf(pages)[..|pages| - 1] == CategoriesOf(init);
      assert DataOf(pages)[..|pages| - 1] == DataOf(init);
      NoDupPrefix(Concat(CategoriesOf(init)), last.categories);
      DataFollowsCategories(init, data);
      OfCategoriesSplit(data, Concat(CategoriesOf(init)), last.categories);
    }
  }

  /** Each record of the dataset is on exactly one page: the pages' records,
      taken together, are the dataset's records. */
  lemma PagesCoverData(sorted: seq<string>, data: seq<Shown>, pageSize: nat)
    requires pageSize >= 1 && NoDup(sorted)
    requires forall i :: 0 <= i < |data| ==> data[i].rec.category in sorted
    ensures multiset(Concat(DataOf(Pages(sorted, data, pageSize)))) == multiset(data)
  {
    var pages := Pages(sorted, data, pageSize);
    forall q | 0 <= q < |pages| ensures pages[q].data == OfCategories(data, pages[q].categories) {
      PageSlice(sorted, data, pageSize, q);
    }
    PagesPartition(sorted, data, pageSize);
    DataFollowsCategories(pages, data);
    OfCategoriesAll(data, sorted);
  }

  /** When every category has a record, no page is without records. */
  lemma PageDataNonEmpty(sorted: seq<string>, data: seq<Shown>, pageSize: nat)
    requires pageSize >= 1
    requires forall c :: c in sorted ==> c in Categories(data)
    ensures forall p :: 0 <= p < PageCount(|sorted|, pageSize) ==> |Pages(sorted, data, pageSize)[p].data| > 0
  {
    PagesTile(sorted, data, pageSize);
    var pages := Pages(sorted, data, pageSize);
    forall p | 0 <= p < |pages| ensures |pages[p].data| > 0 {
      PageSlice(sorted, data, pageSize, p);
      var c := pages[p].categories[0];
      var i := Pos(Categories(data), c);
      OfCategoriesMembers(data, pages[p].categories);
      assert data[i] in pages[p].data;
    }
  }

  /** Seven categories, three to a page: pages 1-3, 4-6 and 7-7. */
  lemma SevenCategoriesThreePerPage(sorted: seq<string>, data: seq<Shown>)
    requires |sorted| == 7
    ensures var pages := Pages(sorted, data, 3);
            |pages| == 3
            && pages[0].start == 1 && pages[0].end == 3
            && pages[1].start == 4 && pages[1].end == 6
            && pages[2].start == 7 && pages[2].end == 7
  {
  }
}
