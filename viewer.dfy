/** The viewer's state and the flows that change or read it: the globals
    `allData`, `metaData` and `currentDataset`, the upload (`processFiles`,
    `processFile`), the dataset selector (`populateDatasetSelector`,
    `handleDatasetChange`) and `renderCurrentDataset`. */
module Viewer {
  import opened Wrappers
  import opened Seqs
  import opened Text
  import opened Sorting
  import opened JsonValue
  import opened DocParser
  import opened Extractor
  import opened Aggregation
  import opened Pagination

  /** The host functions the viewer relies on: `JSON.parse`, number-to-text
      conversion and `parseFloat` of a value that is not a number. */
  datatype Host = Host(parse: string -> Option<Json>, numStr: real -> string, numOf: Json -> real)

  /** An uploaded file: its name, and its text, or `None` when reading it failed. */
  datatype Upload = Upload(name: string, text: Option<string>)

  /** What `processFile` returns for a usable file. */
  datatype FileResult = FileResult(data: seq<Record>, meta: map<string, real>, sourceLabel: string)

  /** Why a whole batch is rejected: no `.json`/`.jsonl` file, or no file with records. */
  datatype BatchError = NoReportFiles | NoUsableFiles

  /** The status line after a good batch: files loaded and records in total. */
  datatype Loaded = Loaded(files: nat, records: nat)

  predicate IsReportFile(name: string) {
    EndsWith(name, ".json") || EndsWith(name, ".jsonl")
  }

  /** `processFile`: read, parse, extract. A failure at any step, or a file
      without records, gives `None`; the error is only reported. */
  function ProcessFile(host: Host, file: Upload): (r: Option<FileResult>)
    ensures r.Some? ==> |r.value.data| > 0 && r.value.sourceLabel == r.value.data[0].sourceLabel
  {
    match file.text
    case None => None
    case Some(text) =>
      match ParseDoc(host.parse, text)
      case Err(_) => None
      case Ok(doc) =>
        match Extracted(doc, host.numStr, host.numOf)
        case Err(_) => None
        case Ok(ex) => if |ex.data| == 0 then None else Some(FileResult(ex.data, ex.meta, ex.data[0].sourceLabel))
  }

  /** A usable file comes from a valid report; it has records, all carrying
      that report's source label, which is also the file's label. */
  lemma ProcessFileResult(host: Host, file: Upload)
    ensures var r := ProcessFile(host, file);
            r.Some? ==>
              && file.text.Some?
              && ParseDoc(host.parse, file.text.value).Ok?
              && var doc := ParseDoc(host.parse, file.text.value).value;
              && Extracted(doc, host.numStr, host.numOf) == Ok(Extraction(r.value.data, r.value.meta))
              && |r.value.data| > 0
              && r.value.sourceLabel == SourceLabel(host.numStr, doc)
              && forall k :: 0 <= k < |r.value.data| ==> WellFormed(r.value.data[k], r.value.sourceLabel)
  {
    if ProcessFile(host, file).Some? {
      var doc := ParseDoc(host.parse, file.text.value).value;
      ExtractedRecords(doc, host.numStr, host.numOf);
    }
  }

  /** A file is kept exactly when it was read, parsed into a valid report, no
      `dataset_results` entry throws, and some result entry qualifies. */
  lemma ProcessFileKept(host: Host, file: Upload)
    ensures ProcessFile(host, file).Some? <==>
              && file.text.Some?
              && ParseDoc(host.parse, file.text.value).Ok?
              && var entries := DatasetEntries(ParseDoc(host.parse, file.text.value).value);
              && (forall i :: 0 <= i < |entries| ==> !EntryThrows(entries[i]))
              && TotalQualifying(entries) > 0
  {
    if file.text.Some? && ParseDoc(host.parse, file.text.value).Ok? {
      var doc := ParseDoc(host.parse, file.text.value).value;
      ExtractedFails(doc, host.numStr, host.numOf);
      ExtractedRecords(doc, host.numStr, host.numOf);
    }
  }

  /** `files.filter(file => file.name.endsWith('.json') || file.name.endsWith('.jsonl'))`. */
  function ReportFiles(files: seq<Upload>): (r: seq<Upload>)
    ensures forall i :: 0 <= i < |r| ==> IsReportFile(r[i].name)
    ensures forall i :: 0 <= i < |files| && IsReportFile(files[i].name) ==> files[i] in r
  {
    if |files| == 0 then []
    else
      var init := files[..|files| - 1];
      var last := files[|files| - 1];
      assert forall i :: 0 <= i < |files| - 1 ==> files[i] == init[i];
      ReportFiles(init) + if IsReportFile(last.name) then [last] else []
  }

  /** Filtering a concatenation filters each part. */
  lemma {:induction false} ReportFilesAppend(a: seq<Upload>, b: seq<Upload>)
    ensures ReportFiles(a + b) == ReportFiles(a) + ReportFiles(b)
    decreases |b|
  {
    if |b| == 0 {
      assert a + b == a;
    } else {
      var init := b[..|b| - 1];
      assert (a + b)[..|a + b| - 1] == a + init;
      ReportFilesAppend(a, init);
    }
  }

  /** A single file is kept exactly when its name ends in `.json` or `.jsonl`. */
  lemma ReportFilesOne(f: Upload)
    ensures ReportFiles([f]) == if IsReportFile(f.name) then [f] else []
  {
    assert [f][..0] == [];
  }

  /** `results.filter(result => result !== null)` over `validFiles.map(processFile)`,
      in file order (`Promise.all` keeps it). */
  function Usable(host: Host, files: seq<Upload>): (r: seq<FileResult>)
    ensures |r| <= |files|
    ensures forall i :: 0 <= i < |r| ==> |r[i].data| > 0
  {
    if |files| == 0 then []
    else
      var init := Usable(host, files[..|files| - 1]);
      var last := ProcessFile(host, files[|files| - 1]);
      if last.None? then init else init + [last.value]
  }

  /** The results of a concatenation are the results of each part. */
  lemma {:induction false} UsableAppend(host: Host, a: seq<Upload>, b: seq<Upload>)
    ensures Usable(host, a + b) == Usable(host, a) + Usable(host, b)
    decreases |b|
  {
    if |b| == 0 {
      assert a + b == a;
    } else {
      var init := b[..|b| - 1];
      var last := b[|b| - 1];
      assert (a + b)[..|a + b| - 1] == a + init && (a + b)[|a + b| - 1] == last;
      UsableAppend(host, a, init);
      var tail := if ProcessFile(host, last).Some? then [ProcessFile(host, last).value] else [];
      assert Usable(host, a + b) == Usable(host, a + init) + tail;
      assert Usable(host, b) == Usable(host, init) + tail;
      AppendStep(Usable(host, a), Usable(host, a + init), Usable(host, init), Usable(host, a + b), tail);
    }
  }

  /** A single file gives its result exactly when processing it succeeds. */
  lemma UsableOne(host: Host, f: Upload)
    ensures Usable(host, [f]) == if ProcessFile(host, f).Some? then [ProcessFile(host, f).value] else []
  {
    assert [f][..0] == [];
  }

  /** Every usable file's records, file after file (`allData.push(...data)`). */
  function MergedData(results: seq<FileResult>): seq<Record> {
    if |results| == 0 then [] else MergedData(results[..|results| - 1]) + results[|results| - 1].data
  }

  /** `metaData[sourceLabel] = meta`, file after file. */
  function MergedMeta(results: seq<FileResult>): map<string, map<string, real>> {
    if |results| == 0 then map[]
    else
      var last := results[|results| - 1];
      MergedMeta(results[..|results| - 1])[last.sourceLabel := last.meta]
  }

  /** The merged records are exactly the usable files' records. */
  lemma {:induction false} MergedDataMembers(results: seq<FileResult>)
    ensures forall x :: x in MergedData(results) <==> exists i :: 0 <= i < |results| && x in results[i].data
  {
    if |results| > 0 {
      var init := results[..|results| - 1];
      MergedDataMembers(init);
      forall x | x in MergedData(results) ensures exists i :: 0 <= i < |results| && x in results[i].data {
        if x !in results[|results| - 1].data {
          assert x in MergedData(init);
          var i :| 0 <= i < |init| && x in init[i].data;
          assert results[i] == init[i];
        }
      }
      forall x | exists i :: 0 <= i < |results| && x in results[i].data ensures x in MergedData(results) {
        var i :| 0 <= i < |results| && x in results[i].data;
        if i < |results| - 1 {
          assert init[i] == results[i];
        }
      }
    }
  }

  /** Metadata is keyed by source label and the last file with a label wins. */
  lemma {:induction false} MergedMetaLastWins(results: seq<FileResult>, i: nat)
    requires i < |results|
    requires forall j :: i < j < |results| ==> results[j].sourceLabel != results[i].sourceLabel
    ensures results[i].sourceLabel in MergedMeta(results)
    ensures MergedMeta(results)[results[i].sourceLabel] == results[i].meta
  {
    if i < |results| - 1 {
      var init := results[..|results| - 1];
      MergedMetaLastWins(init, i);
    }
  }

  /** A label is in the metadata exactly when some usable file has it. */
  lemma {:induction false} MergedMetaKeys(results: seq<FileResult>)
    ensures forall s :: s in MergedMeta(results) <==> exists i :: 0 <= i < |results| && results[i].sourceLabel == s
  {
    if |results| > 0 {
      var init := results[..|results| - 1];
      MergedMetaKeys(init);
      forall s | s in MergedMeta(results) ensures exists i :: 0 <= i < |results| && results[i].sourceLabel == s {
        if s != results[|results| - 1].sourceLabel {
          assert s in MergedMeta(init);
          var i :| 0 <= i < |init| && init[i].sourceLabel == s;
          assert results[i].sourceLabel == s;
        }
      }
      forall s | exists i :: 0 <= i < |results| && results[i].sourceLabel == s ensures s in MergedMeta(results) {
        var i :| 0 <= i < |results| && results[i].sourceLabel == s;
        if i < |results| - 1 {
          assert init[i].sourceLabel == s;
        }
      }
    }
  }

  function Datasets(data: seq<Record>): (r: seq<string>)
    ensures |r| == |data|
  {
    seq(|data|, i requires 0 <= i < |data| => data[i].dataset)
  }

  /** `[...new Set(allData.map(item => item.dataset))].sort()`. */
  function DatasetList(data: seq<Record>): seq<string> {
    Sort(Distinct(Datasets(data)), LexLess)
  }

  lemma LexLessStrictWeakOrder()
    ensures StrictWeakOrder(LexLess)
  {
    forall a, b | LexLess(a, b) ensures !LexLess(b, a) {
      LexLessAsymmetric(a, b);
    }
    forall a, b, c | !LexLess(a, b) && !LexLess(b, c) ensures !LexLess(a, c) {
      if a != b { LexLessTotal(a, b); }
      if b != c { LexLessTotal(b, c); }
      if a != b && b != c {
        LexLessTransitive(c, b, a);
        LexLessAsymmetric(c, a);
      }
    }
  }

  /** The dataset list names every dataset once, in strictly ascending order. */
  lemma DatasetListSorted(data: seq<Record>)
    ensures var list := DatasetList(data);
            && |list| == |Distinct(Datasets(data))|
            && (forall d :: d in list <==> exists k :: 0 <= k < |data| && data[k].dataset == d)
            && forall i, j :: 0 <= i < j < |list| ==> LexLess(list[i], list[j])
  {
    var ds := Distinct(Datasets(data));
    var list := DatasetList(data);
    SortDistinct(ds, LexLess);
    forall d ensures d in list <==> exists k :: 0 <= k < |data| && data[k].dataset == d {
      if d in ds {
        var k := Pos(ds, d);
        var m := Pos(Datasets(data), ds[k]);
        assert data[m].dataset == d;
      }
      if exists k :: 0 <= k < |data| && data[k].dataset == d {
        var k :| 0 <= k < |data| && data[k].dataset == d;
        assert Datasets(data)[k] == d;
      }
    }
    LexLessStrictWeakOrder();
    SortSorts(ds, LexLess);
    forall i, j | 0 <= i < j < |list| ensures LexLess(list[i], list[j]) {
      LexLessTotal(list[i], list[j]);
    }
  }

  /** What `renderCurrentDataset` draws: nothing when no dataset is chosen or
      it has no records, otherwise the pages of its ordered categories. */
  function Rendered(all: seq<Record>, ds: string, normalize: bool, pageSize: nat, mode: SortMode,
                    localeLess: (string, string) -> bool): Option<seq<Page>>
    requires pageSize >= 1
  {
    if ds == "" || |all| == 0 then None
    else
      var work := OfDataset(all, ds);
      if |work| == 0 then None
      else
        var items := Display(work, normalize);
        Some(Pages(SortedCategories(items, mode, localeLess), items, pageSize))
  }

  /** The pages drawn for a dataset: `ceil(n / pageSize)` of them, each with
      records (so each chart has data), whose categories read in order are
      the ordered distinct categories, and whose records together are the
      dataset's records, each once. */
  lemma RenderedPages(all: seq<Record>, ds: string, normalize: bool, pageSize: nat, mode: SortMode,
                      localeLess: (string, string) -> bool)
    requires pageSize >= 1
    ensures var r := Rendered(all, ds, normalize, pageSize, mode, localeLess);
            r.Some? ==>
              var items := Display(OfDataset(all, ds), normalize);
              var sorted := SortedCategories(items, mode, localeLess);
              && |r.value| == PageCount(|Distinct(Categories(items))|, pageSize)
              && |r.value| > 0
              && (forall p :: 0 <= p < |r.value| ==> |r.value[p].data| > 0)
              && Concat(CategoriesOf(r.value)) == sorted
              && multiset(Concat(DataOf(r.value))) == multiset(items)
  {
    if Rendered(all, ds, normalize, pageSize, mode, localeLess).Some? {
      var items := Display(OfDataset(all, ds), normalize);
      var sorted := SortedCategories(items, mode, localeLess);
      SortedCategoriesPermute(items, mode, localeLess);
      assert Categories(items)[0] in sorted;
      forall i | 0 <= i < |items| ensures items[i].rec.category in sorted {
        assert Categories(items)[i] in sorted;
      }
      PagesPartition(sorted, items, pageSize);
      PagesCoverData(sorted, items, pageSize);
      PageDataNonEmpty(sorted, items, pageSize);
    }
  }

  class Corpus {
    var allData: seq<Record>
    var metaData: map<string, map<string, real>>
    var currentDataset: string

    /** The state at page load. */
    constructor ()
      ensures allData == [] && metaData == map[] && currentDataset == ""
    {
      allData := [];
      metaData := map[];
      currentDataset := "";
    }

    /** `processFiles`. A rejected batch changes nothing; an accepted one
        replaces the records and metadata by the merge of its usable files,
        in file order, and selects the first dataset of the list. */
    method ProcessFiles(host: Host, files: seq<Upload>) returns (r: Result<Loaded, BatchError>)
      modifies this
      ensures var valid := Usable(host, ReportFiles(files));
              && (r.Err? ==> allData == old(allData) && metaData == old(metaData) && currentDataset == old(currentDataset))
              && (r == Err(NoReportFiles) <==> |ReportFiles(files)| == 0)
              && (r == Err(NoUsableFiles) <==> |ReportFiles(files)| > 0 && |valid| == 0)
              && (r.Ok? ==>
                    && r.value == Loaded(|valid|, |allData|)
                    && allData == MergedData(valid)
                    && metaData == MergedMeta(valid)
                    && |DatasetList(allData)| > 0
                    && currentDataset == DatasetList(allData)[0])
    {
      var validFiles := ReportFiles(files);
      if |validFiles| == 0 {
        return Err(NoReportFiles);
      }
      var validResults := Usable(host, validFiles);
      if |validResults| == 0 {
        return Err(NoUsableFiles);
      }
      Merge(validResults);
      DatasetListNonEmpty(validResults);
      PopulateDatasetSelector();
      r := Ok(Loaded(|validResults|, |allData|));
    }

    /** The reset and the `forEach` that merges the usable files' records and metadata. */
    method Merge(results: seq<FileResult>)
      modifies this
      ensures allData == MergedData(results)
      ensures metaData == MergedMeta(results)
      ensures currentDataset == old(currentDataset)
    {
      allData := [];
      metaData := map[];
      for i := 0 to |results|
        invariant allData == MergedData(results[..i])
        invariant metaData == MergedMeta(results[..i])
        invariant currentDataset == old(currentDataset)
      {
        assert results[..i + 1][..i] == results[..i];
        allData := allData + results[i].data;
        metaData := metaData[results[i].sourceLabel := results[i].meta];
      }
      assert results[..|results|] == results;
    }

    /** `populateDatasetSelector`: the first dataset of the sorted list becomes
        the current one; with no dataset the selection stays. */
    method PopulateDatasetSelector()
      modifies this
      ensures allData == old(allData) && metaData == old(metaData)
      ensures var datasets := DatasetList(allData);
              currentDataset == if |datasets| > 0 then datasets[0] else old(currentDataset)
    {
      var datasets := DatasetList(allData);
      if |datasets| > 0 {
        currentDataset := datasets[0];
      }
    }

    /** `handleDatasetChange`: only the selection changes. */
    method SelectDataset(ds: string)
      modifies this
      ensures currentDataset == ds
      ensures allData == old(allData) && metaData == old(metaData)
    {
      currentDataset := ds;
    }

    /** `renderCurrentDataset`: the pages it draws, or `None` when it returns
        before drawing. `pageSize` is the parsed page-size option. */
    method Render(normalize: bool, pageSize: nat, sortMode: string, localeLess: (string, string) -> bool)
      returns (r: Option<seq<Page>>)
      requires pageSize >= 1
      ensures r == Rendered(allData, currentDataset, normalize, pageSize, SortModeOf(sortMode), localeLess)
    {
      if currentDataset == "" || |allData| == 0 {
        return None;
      }
      var workData := OfDataset(allData, currentDataset);
      if |workData| == 0 {
        return None;
      }
      var processedData := Display(workData, normalize);
      ghost var mode := SortModeOf(sortMode);
      assert Rendered(allData, currentDataset, normalize, pageSize, mode, localeLess)
          == Some(Pages(SortedCategories(processedData, mode, localeLess), processedData, pageSize));
      var keys, groups := GroupByCategory(processedData);
      var categoryOrder := seq(|keys|, i requires 0 <= i < |keys| && keys[i] in groups && |groups[keys[i]]| > 0 =>
                                 CategoryAverage(keys[i], Mean(groups[keys[i]])));
      assert categoryOrder == Averages(Distinct(Categories(processedData)), processedData) by {
        GroupsNonEmpty(processedData, keys, groups);
        GroupAverages(processedData, keys, groups, categoryOrder);
      }
      var sorted := Sort(categoryOrder, Before(SortModeOf(sortMode), localeLess));
      var sortedCategories := Names(sorted);
      assert sortedCategories == SortedCategories(processedData, SortModeOf(sortMode), localeLess);
      var pages := Paginate(sortedCategories, processedData, pageSize);
      return Some(pages);
    }
  }

  /** Every key has a nonempty group. */
  lemma GroupsNonEmpty(items: seq<Shown>, keys: seq<string>, groups: map<string, seq<real>>)
    requires keys == Distinct(Categories(items))
    requires forall c :: c in groups <==> c in Categories(items)
    requires forall c :: c in groups ==> groups[c] == ValuesOf(items, c)
    ensures forall i :: 0 <= i < |keys| ==> keys[i] in groups && |groups[keys[i]]| > 0
  {
    forall i | 0 <= i < |keys| ensures keys[i] in groups && |groups[keys[i]]| > 0 {
      assert keys[i] in Distinct(Categories(items));

    }
  }

  /** The averages computed from the groups are the category averages. */
  lemma GroupAverages(items: seq<Shown>, keys: seq<string>, groups: map<string, seq<real>>, order: seq<CategoryAverage>)
    requires keys == Distinct(Categories(items))
    requires forall c :: c in groups <==> c in Categories(items)
    requires forall c :: c in groups ==> groups[c] == ValuesOf(items, c)
    requires |order| == |keys|
    requires forall i :: 0 <= i < |keys| ==> keys[i] in groups && |groups[keys[i]]| > 0 && order[i] == CategoryAverage(keys[i], Mean(groups[keys[i]]))
    ensures forall i :: 0 <= i < |keys| ==> keys[i] in Categories(items)
    ensures order == Averages(keys, items)
  {
  }

  /** Usable files bring at least one dataset. */
  lemma DatasetListNonEmpty(results: seq<FileResult>)
    requires |results| > 0
    requires forall i :: 0 <= i < |results| ==> |results[i].data| > 0
    ensures |DatasetList(MergedData(results))| > 0
  {
    var all := MergedData(results);
    MergedDataMembers(results);
    assert results[0].data[0] in all;
    var k :| 0 <= k < |all| && all[k] == results[0].data[0];
    DatasetListSorted(all);
    assert all[k].dataset in DatasetList(all);
  }
}
