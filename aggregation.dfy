/** Grouping and ordering of the current dataset's categories
    (`renderCurrentDataset`, script.js:257-294). */
module Aggregation {
  import opened Wrappers
  import opened Seqs
  import opened Sorting
  import opened Extractor

  /** A record with the value the charts, table and CSV show (`{...item, displayValue}`). */
  datatype Shown = Shown(rec: Record, displayValue: real)

  /** `x * (normalize ? 100 : 1)`: the "normalise" check box multiplies
      accuracies by 100; multiplying by 1 leaves them as they are. */
  function Scaled(x: real, normalize: bool): real {
    if normalize then x * 100.0 else x
  }

  /** `allData.filter(item => item.dataset === currentDataset)`. */
  function OfDataset(all: seq<Record>, ds: string): (r: seq<Record>)
    ensures forall i :: 0 <= i < |r| ==> r[i].dataset == ds && r[i] in all
    ensures forall i :: 0 <= i < |all| && all[i].dataset == ds ==> all[i] in r
  {
    if |all| == 0 then []
    else
      var init := all[..|all| - 1];
      var r := OfDataset(init, ds);
      assert forall i :: 0 <= i < |all| - 1 ==> all[i] == init[i];
      if all[|all| - 1].dataset == ds then r + [all[|all| - 1]] else r
  }

  /** Filtering a concatenation filters each part. */
  lemma {:induction false} OfDatasetAppend(a: seq<Record>, b: seq<Record>, ds: string)
    ensures OfDataset(a + b, ds) == OfDataset(a, ds) + OfDataset(b, ds)
    decreases |b|
  {
    if |b| == 0 {
      assert a + b == a;
    } else {
      var init := b[..|b| - 1];
      assert (a + b)[..|a + b| - 1] == a + init;
      OfDatasetAppend(a, init, ds);
    }
  }

  /** A single record is kept exactly when it belongs to the dataset. */
  lemma OfDatasetOne(x: Record, ds: string)
    ensures OfDataset([x], ds) == if x.dataset == ds then [x] else []
  {
    assert [x][..0] == [];
  }

  /** The records with their display values (`workData.map(...)`). */
  function Display(work: seq<Record>, normalize: bool): (r: seq<Shown>)
    ensures |r| == |work|
    ensures forall i :: 0 <= i < |r| ==> r[i].rec == work[i]
    ensures forall i :: 0 <= i < |r| ==> r[i].displayValue == Scaled(work[i].accuracyMean, normalize)
  {
    seq(|work|, i requires 0 <= i < |work| => Shown(work[i], Scaled(work[i].accuracyMean, normalize)))
  }

  function Categories(items: seq<Shown>): (r: seq<string>)
    ensures |r| == |items|
  {
    seq(|items|, i requires 0 <= i < |items| => items[i].rec.category)
  }

  /** The display values of category `c`, in record order. */
  function ValuesOf(items: seq<Shown>, c: string): (r: seq<real>)
    ensures |r| > 0 <==> c in Categories(items)
  {
    if |items| == 0 then []
    else
      var init := items[..|items| - 1];
      var last := items[|items| - 1];
      assert Categories(items) == Categories(init) + [last.rec.category];
      ValuesOf(init, c) + if last.rec.category == c then [last.displayValue] else []
  }

  lemma ValuesOfAppend(items: seq<Shown>, x: Shown, c: string)
    ensures ValuesOf(items + [x], c) == ValuesOf(items, c) + if x.rec.category == c then [x.displayValue] else []
  {
    assert (items + [x])[..|items|] == items;
  }

  lemma CategoriesAppend(items: seq<Shown>, x: Shown)
    ensures Categories(items + [x]) == Categories(items) + [x.rec.category]
  {
  }

  lemma DistinctAppend(s: seq<string>, c: string)
    ensures Distinct(s + [c]) == if c in Distinct(s) then Distinct(s) else Distinct(s) + [c]
  {
    assert (s + [c])[..|s|] == s;
  }

  /** `keys` and `groups` hold what `categoryAverages` holds after `items`. */
  ghost predicate Grouping(items: seq<Shown>, keys: seq<string>, groups: map<string, seq<real>>) {
    && keys == Distinct(Categories(items))
    && (forall c :: c in groups <==> c in keys)
    && (forall c :: c in groups ==> groups[c] == ValuesOf(items, c))
  }

  lemma GroupingStep(items: seq<Shown>, x: Shown, keys: seq<string>, groups: map<string, seq<real>>,
                     keys': seq<string>, groups': map<string, seq<real>>)
    requires Grouping(items, keys, groups)
    requires var c := x.rec.category;
             var g := if c in groups then groups else groups[c := []];
             keys' == (if c in groups then keys else keys + [c]) && groups' == g[c := g[c] + [x.displayValue]]
    ensures Grouping(items + [x], keys', groups')
  {
    GroupingStepKeys(items, x, keys, groups);
    GroupingStepDomain(items, x, keys, groups);
    GroupingStepValues(items, x, keys, groups);
  }

  lemma GroupingStepKeys(items: seq<Shown>, x: Shown, keys: seq<string>, groups: map<string, seq<real>>)
    requires Grouping(items, keys, groups)
    ensures var c := x.rec.category;
            (if c in groups then keys else keys + [c]) == Distinct(Categories(items + [x]))
  {
    CategoriesAppend(items, x);
    DistinctAppend(Categories(items), x.rec.category);
  }
  lemma GroupingStepDomain(items: seq<Shown>, x: Shown, keys: seq<string>, groups: map<string, seq<real>>)
    requires Grouping(items, keys, groups)
    ensures var c := x.rec.category;
            var g := if c in groups then groups else groups[c := []];
            var g' := g[c := g[c] + [x.displayValue]];
            var keys' := if c in groups then keys else keys + [c];
            forall c' :: c' in g' <==> c' in keys'
  {
  }
  lemma GroupingStepValues(items: seq<Shown>, x: Shown, keys: seq<string>, groups: map<string, seq<real>>)
    requires Grouping(items, keys, groups)
    ensures var c := x.rec.category;
            var g := if c in groups then groups else groups[c := []];
            var g' := g[c := g[c] + [x.displayValue]];
            forall c' :: c' in g' ==> g'[c'] == ValuesOf(items + [x], c')
  {
    var c := x.rec.category;
    var g := if c in groups then groups else groups[c := []];
    var g' := g[c := g[c] + [x.displayValue]];
    if c !in groups {
      assert c !in Categories(items);
      assert ValuesOf(items, c) == [];
    }
    forall c' | c' in g' ensures g'[c'] == ValuesOf(items + [x], c') {
      ValuesOfAppend(items, x, c');
    }
  }

  /** Builds `categoryAverages` with `forEach`: `keys` is the order in which
      the object acquired its keys, `groups` its contents. An array, even an
      empty one, is truthy, so a category's array is created only once. */
  method GroupByCategory(items: seq<Shown>) returns (keys: seq<string>, groups: map<string, seq<real>>)
    ensures keys == Distinct(Categories(items))
    ensures forall c :: c in groups <==> c in Categories(items)
    ensures forall c :: c in groups ==> groups[c] == ValuesOf(items, c)
  {
    keys := [];
    groups := map[];
    for i := 0 to |items|
      invariant Grouping(items[..i], keys, groups)
    {
      keys, groups := AddValue(items[..i], keys, groups, items[i]);
      PrefixStep(items, i);
    }
    PrefixAll(items);
    GroupingComplete(items, keys, groups);
  }

  /** The `forEach` callback: creates the category's array when it has none,
      then pushes the value. What held after `items` holds after `items + [x]`. */
  method AddValue(ghost items: seq<Shown>, keys: seq<string>, groups: map<string, seq<real>>, x: Shown)
    returns (keys': seq<string>, groups': map<string, seq<real>>)
    requires Grouping(items, keys, groups)
    ensures Grouping(items + [x], keys', groups')
  {
    var c := x.rec.category;
    keys', groups' := keys, groups;
    if c !in groups' {
      groups' := groups'[c := []];
      keys' := keys' + [c];
    }
    groups' := groups'[c := groups'[c] + [x.displayValue]];
    GroupingStep(items, x, keys, groups, keys', groups');
  }

  lemma GroupingComplete(items: seq<Shown>, keys: seq<string>, groups: map<string, seq<real>>)
    requires Grouping(items, keys, groups)
    ensures forall c :: c in groups <==> c in Categories(items)
  {
    forall c ensures c in groups <==> c in Categories(items) {
      assert c in keys <==> c in Distinct(Categories(items));
    }
  }

  /** An entry of `categoryOrder`. */
  datatype CategoryAverage = CategoryAverage(category: string, average: real)

  /** `categoryOrder` before sorting: each key with the mean of its values. */
  function Averages(keys: seq<string>, items: seq<Shown>): (r: seq<CategoryAverage>)
    requires forall i :: 0 <= i < |keys| ==> keys[i] in Categories(items)
    ensures |r| == |keys|
    ensures forall i :: 0 <= i < |r| ==> r[i].category == keys[i]
    ensures forall i :: 0 <= i < |r| ==> r[i].average == Mean(ValuesOf(items, keys[i]))
  {
    seq(|keys|, i requires 0 <= i < |keys| => CategoryAverage(keys[i], Mean(ValuesOf(items, keys[i]))))
  }

  function Names(order: seq<CategoryAverage>): (r: seq<string>)
    ensures |r| == |order|
  {
    seq(|order|, i requires 0 <= i < |order| => order[i].category)
  }

  /** The sort-mode selector: "desc", "asc", anything else sorts by name. */
  datatype SortMode = Descending | Ascending | ByName

  function SortModeOf(value: string): SortMode {
    if value == "desc" then Descending
    else if value == "asc" then Ascending
    else ByName
  }

  /** "`a` sorts before `b`": the comparator returns a negative number.
      `localeLess(x, y)` stands for `x.localeCompare(y) < 0`. */
  function Before(mode: SortMode, localeLess: (string, string) -> bool): (CategoryAverage, CategoryAverage) -> bool {
    match mode
    case Descending => (a: CategoryAverage, b: CategoryAverage) => b.average - a.average < 0.0
    case Ascending => (a: CategoryAverage, b: CategoryAverage) => a.average - b.average < 0.0
    case ByName => (a: CategoryAverage, b: CategoryAverage) => localeLess(a.category, b.category)
  }

  lemma BeforeIsStrictWeakOrder(mode: SortMode, localeLess: (string, string) -> bool)
    requires StrictWeakOrder(localeLess)
    ensures StrictWeakOrder(Before(mode, localeLess))
  {
    var less := Before(mode, localeLess);
    forall a, b | less(a, b) ensures !less(b, a) {
      if mode == ByName {
        assert localeLess(a.category, b.category);
      }
    }
    forall a, b, c | !less(a, b) && !less(b, c) ensures !less(a, c) {
      if mode == ByName {
        assert !localeLess(a.category, b.category) && !localeLess(b.category, c.category);
      }
    }
  }

  /** `categoryOrder` after sorting. */
  function CategoryOrder(items: seq<Shown>, mode: SortMode, localeLess: (string, string) -> bool): seq<CategoryAverage> {
    Sort(Averages(Distinct(Categories(items)), items), Before(mode, localeLess))
  }

  /** `sortedCategories`. */
  function SortedCategories(items: seq<Shown>, mode: SortMode, localeLess: (string, string) -> bool): seq<string> {
    Names(CategoryOrder(items, mode, localeLess))
  }

  /** The sorted entries are the unsorted ones, each once. */
  lemma CategoryOrderMembers(items: seq<Shown>, mode: SortMode, localeLess: (string, string) -> bool)
    ensures var avgs := Averages(Distinct(Categories(items)), items);
            var order := CategoryOrder(items, mode, localeLess);
            NoDup(order) && |order| == |avgs| && forall x :: x in order <==> x in avgs
  {
    var avgs := Averages(Distinct(Categories(items)), items);
    var order := CategoryOrder(items, mode, localeLess);
    assert NoDup(avgs);
    SortDistinct(avgs, Before(mode, localeLess));
  }

  /** The sorted categories are the distinct categories, each exactly once. */
  lemma SortedCategoriesPermute(items: seq<Shown>, mode: SortMode, localeLess: (string, string) -> bool)
    ensures |SortedCategories(items, mode, localeLess)| == |Distinct(Categories(items))|
    ensures NoDup(SortedCategories(items, mode, localeLess))
    ensures forall c :: c in SortedCategories(items, mode, localeLess) <==> c in Categories(items)
  {
    var keys := Distinct(Categories(items));
    CategoryOrderMembers(items, mode, localeLess);
    NamesPermute(keys, Averages(keys, items), CategoryOrder(items, mode, localeLess));
    forall c ensures c in keys <==> c in Categories(items) {
      if c in keys {
        assert keys[Pos(keys, c)] in Categories(items);
      }
    }
  }

  /** The names of a reordering of one entry per key are the keys, each once. */
  lemma NamesPermute(keys: seq<string>, avgs: seq<CategoryAverage>, order: seq<CategoryAverage>)
    requires NoDup(keys) && |avgs| == |keys| && forall i :: 0 <= i < |avgs| ==> avgs[i].category == keys[i]
    requires NoDup(order) && |order| == |avgs| && forall x :: x in order <==> x in avgs
    ensures |Names(order)| == |keys| && NoDup(Names(order))
    ensures forall c :: c in Names(order) <==> c in keys
  {
    var names := Names(order);
    forall i, j | 0 <= i < j < |names| ensures names[i] != names[j] {
      assert order[i] in avgs && order[j] in avgs;
      assert Pos(avgs, order[i]) != Pos(avgs, order[j]);
    }
    forall c | c in keys ensures c in names {
      var k := Pos(keys, c);
      assert avgs[k] in order;
      assert names[Pos(order, avgs[k])] == c;
    }
    forall c | c in names ensures c in keys {
      var p := Pos(names, c);
      assert order[p] in avgs;
      assert keys[Pos(avgs, order[p])] == c;
    }
  }

  /** The categories come out in the order the sort mode asks for. */
  lemma CategoryOrderSorted(items: seq<Shown>, mode: SortMode, localeLess: (string, string) -> bool)
    requires StrictWeakOrder(localeLess)
    ensures var order := CategoryOrder(items, mode, localeLess);
            mode == Descending ==> forall i, j :: 0 <= i < j < |order| ==> order[i].average >= order[j].average
    ensures var order := CategoryOrder(items, mode, localeLess);
            mode == Ascending ==> forall i, j :: 0 <= i < j < |order| ==> order[i].average <= order[j].average
    ensures var order := CategoryOrder(items, mode, localeLess);
            mode == ByName ==> forall i, j :: 0 <= i < j < |order| ==> !localeLess(order[j].category, order[i].category)
  {
    BeforeIsStrictWeakOrder(mode, localeLess);
    SortSorts(Averages(Distinct(Categories(items)), items), Before(mode, localeLess));
  }

  /** Ties keep the order in which the categories first appear among the records. */
  lemma CategoryOrderStable(items: seq<Shown>, mode: SortMode, localeLess: (string, string) -> bool)
    ensures var avgs := Averages(Distinct(Categories(items)), items);
            var order := CategoryOrder(items, mode, localeLess);
            && (forall x :: x in avgs ==> x in order)
            && forall i, j :: 0 <= i < j < |avgs| && Tied(Before(mode, localeLess), avgs[i], avgs[j]) ==>
                 Pos(order, avgs[i]) < Pos(order, avgs[j])
  {
    var avgs := Averages(Distinct(Categories(items)), items);
    assert NoDup(avgs);
    SortStable(avgs, Before(mode, localeLess));
  }

  lemma {:induction false} SumScaled(xs: seq<real>, ys: seq<real>, k: real)
    requires |xs| == |ys|
    requires forall i :: 0 <= i < |xs| ==> ys[i] == k * xs[i]
    ensures Sum(ys) == k * Sum(xs)
  {
    if |xs| > 0 {
      SumScaled(xs[..|xs| - 1], ys[..|ys| - 1], k);
    }
  }

  lemma {:induction false} ValuesOfScaled(work: seq<Record>, c: string)
    ensures |ValuesOf(Display(work, true), c)| == |ValuesOf(Display(work, false), c)|
    ensures forall i :: 0 <= i < |ValuesOf(Display(work, false), c)| ==>
              ValuesOf(Display(work, true), c)[i] == 100.0 * ValuesOf(Display(work, false), c)[i]
  {
    if |work| > 0 {
      var init := work[..|work| - 1];
      ValuesOfScaled(init, c);
      assert Display(work, true)[..|work| - 1] == Display(init, true);
      assert Display(work, false)[..|work| - 1] == Display(init, false);
    }
  }

  function ScaleAverage(a: CategoryAverage): CategoryAverage {
    CategoryAverage(a.category, 100.0 * a.average)
  }

  lemma AverageScaled(work: seq<Record>, c: string)
    requires c in Categories(Display(work, false))
    ensures Categories(Display(work, true)) == Categories(Display(work, false))
    ensures Mean(ValuesOf(Display(work, true), c)) == 100.0 * Mean(ValuesOf(Display(work, false), c))
  {
    CategoriesOfDisplay(work);
    var xs := ValuesOf(Display(work, false), c);
    var ys := ValuesOf(Display(work, true), c);
    ValuesOfScaled(work, c);
    MeanScaled(xs, ys);
  }

  lemma MeanScaled(xs: seq<real>, ys: seq<real>)
    requires |xs| == |ys| > 0
    requires forall i :: 0 <= i < |xs| ==> ys[i] == 100.0 * xs[i]
    ensures Mean(ys) == 100.0 * Mean(xs)
  {
    SumScaled(xs, ys, 100.0);
    QuotientScaled(Sum(xs), Sum(ys), |xs| as real, 100.0);
  }

  /** The categories do not depend on the display values. */
  lemma CategoriesOfDisplay(work: seq<Record>)
    ensures Categories(Display(work, true)) == Categories(Display(work, false))
  {
    var a := Categories(Display(work, true));
    var b := Categories(Display(work, false));
    assert forall i :: 0 <= i < |a| ==> a[i] == work[i].category == b[i];
  }

  lemma QuotientScaled(x: real, y: real, n: real, k: real)
    requires n > 0.0 && y == k * x
    ensures y / n == k * (x / n)
  {
  }

  lemma AveragesScaled(work: seq<Record>)
    ensures Categories(Display(work, true)) == Categories(Display(work, false))
    ensures var keys := Distinct(Categories(Display(work, false)));
            Averages(keys, Display(work, true)) == MapSeq(ScaleAverage, Averages(keys, Display(work, false)))
  {
    var raw := Display(work, false);
    var norm := Display(work, true);
    assert Categories(norm) == Categories(raw);
    var keys := Distinct(Categories(raw));
    var a := Averages(keys, raw);
    var b := Averages(keys, norm);
    forall i | 0 <= i < |keys| ensures b[i] == ScaleAverage(a[i]) {
      AverageScaled(work, keys[i]);
    }
  }

  lemma ScalingKeepsBefore(mode: SortMode, localeLess: (string, string) -> bool)
    ensures var less := Before(mode, localeLess);
            forall x, y :: less(ScaleAverage(x), ScaleAverage(y)) == less(x, y)
  {
  }

  /** Normalising changes the values shown but never the order of the categories. */
  lemma NormalizeKeepsOrder(work: seq<Record>, mode: SortMode, localeLess: (string, string) -> bool)
    ensures SortedCategories(Display(work, true), mode, localeLess) == SortedCategories(Display(work, false), mode, localeLess)
  {
    var raw := Display(work, false);
    var norm := Display(work, true);
    var keys := Distinct(Categories(raw));
    var a := Averages(keys, raw);
    var less := Before(mode, localeLess);
    AveragesScaled(work);
    assert CategoryOrder(norm, mode, localeLess) == Sort(MapSeq(ScaleAverage, a), less);
    ScalingKeepsBefore(mode, localeLess);
    SortMap(ScaleAverage, a, less, less);
    NamesScaled(Sort(a, less));
  }

  lemma NamesScaled(order: seq<CategoryAverage>)
    ensures Names(MapSeq(ScaleAverage, order)) == Names(order)
  {
    assert forall i :: 0 <= i < |order| ==> Names(MapSeq(ScaleAverage, order))[i] == order[i].category;
  }

  /** `[...new Set(data.map(item => item.sourceLabel))]`: the models on a
      page, in the order they first appear. */
  function SourceLabels(data: seq<Shown>): (r: seq<string>)
    ensures NoDup(r)
    ensures forall i :: 0 <= i < |data| ==> data[i].rec.sourceLabel in r
    ensures forall x :: x in r ==> exists i :: 0 <= i < |data| && data[i].rec.sourceLabel == x
  {
    var labels := seq(|data|, i requires 0 <= i < |data| => data[i].rec.sourceLabel);
    assert forall i :: 0 <= i < |data| ==> labels[i] == data[i].rec.sourceLabel;
    Distinct(labels)
  }

  predicate Matches(item: Shown, category: string, source: string) {
    item.rec.category == category && item.rec.sourceLabel == source
  }

  /** `data.find(d => d.category === category && d.sourceLabel === source)`,
      as the index of the record found. */
  function FindRecord(data: seq<Shown>, category: string, source: string): (r: Option<nat>)
    ensures r.Some? ==> r.value < |data| && Matches(data[r.value], category, source)
                        && forall k :: 0 <= k < r.value ==> !Matches(data[k], category, source)
    ensures r.None? <==> forall k :: 0 <= k < |data| ==> !Matches(data[k], category, source)
  {
    if |data| == 0 then None
    else if Matches(data[0], category, source) then Some(0)
    else
      match FindRecord(data[1..], category, source)
      case None => None
      case Some(k) => Some(k + 1)
  }

  /** `Object.prototype` members that an empty object literal inherits. */
  const InheritedNames: set<string> := {
    "constructor", "hasOwnProperty", "isPrototypeOf", "propertyIsEnumerable",
    "toString", "toLocaleString", "valueOf", "__proto__",
    "__defineGetter__", "__defineSetter__", "__lookupGetter__", "__lookupSetter__"
  }

  /** The TypeError `categoryAverages[c].push is not a function`. */
  datatype GroupError = PushNotAFunction(name: string)

  /** The keys of `categoryAverages` as script.js:272-278 builds it on a plain
      object `{}`: for an inherited name `categoryAverages[c]` is already
      truthy (a function, or `Object.prototype` for `__proto__`), no array is
      created, and the `push` throws. */
  function GroupAsWritten(items: seq<Shown>): (r: Result<seq<string>, GroupError>)
    ensures r.Ok? ==> r.value == Distinct(Categories(items))
  {
    if |items| == 0 then Ok([])
    else
      var init := items[..|items| - 1];
      var c := items[|items| - 1].rec.category;
      assert Categories(items) == Categories(init) + [c];
      match GroupAsWritten(init)
      case Err(e) => Err(e)
      case Ok(keys) =>
        if c in InheritedNames then Err(PushNotAFunction(c))
        else Ok(if c in keys then keys else keys + [c])
  }

  /** The grouping fails exactly when some category is an inherited name. */
  lemma {:induction false} GroupAsWrittenFails(items: seq<Shown>)
    ensures GroupAsWritten(items).Err? <==> exists i :: 0 <= i < |items| && items[i].rec.category in InheritedNames
  {
    if |items| > 0 {
      var init := items[..|items| - 1];
      GroupAsWrittenFails(init);
      if exists i :: 0 <= i < |init| && init[i].rec.category in InheritedNames {
        var i :| 0 <= i < |init| && init[i].rec.category in InheritedNames;
        assert items[i] == init[i];
      }
      if exists i :: 0 <= i < |items| && items[i].rec.category in InheritedNames {
        var i :| 0 <= i < |items| && items[i].rec.category in InheritedNames;
        if i < |items| - 1 {
          assert init[i] == items[i];
        }
      }
    }
  }

  /** A result file whose only entry is `constructor.json` breaks the page. */
  lemma ConstructorCategoryThrows(r: Record, v: real)
    requires r.category == "constructor"
    ensures GroupAsWritten([Shown(r, v)]) == Err(PushNotAFunction("constructor"))
  {
    assert [Shown(r, v)][..0] == [];
  }
}
