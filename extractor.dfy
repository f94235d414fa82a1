/** The record extractor (`extractRecords`): walks a validated report and
    yields one flat record per usable result entry, plus an average per
    dataset. */
module Extractor {
  import opened Wrappers
  import opened JsonValue
  import opened Text
  import Seqs

  /** One normalised result row. */
  datatype Record = Record(
    dataset: string,
    category: string,
    file: string,
    accuracyMean: real,
    sourceLabel: string)

  /** The pair `{ data, meta }` that `extractRecords` returns. */
  datatype Extraction = Extraction(data: seq<Record>, meta: map<string, real>)

  /** The TypeErrors `extractRecords` can throw; each makes the whole file unusable. */
  datatype ExtractError =
    | ResultsNotIterable  // `for (const item of results)` over a truthy number, boolean or plain object
    | FileNotString       // `filePath.split` on a `file` that is not a string
    | NullResultEntry     // `item.accuracy_mean` on a `null` element of `results`
    | ResultsNotArray     // `results.map` on a `results` that is a string

  const DatasetsPrefix: string := "datasets/"
  const DefaultDataset: string := "default_dataset"

  // ---------------------------------------------------------------- names

  /** `s.replace(/^\/+|\/+$/g, '')`: the leading and the trailing runs of `/` removed. */
  function TrimSlashes(s: string): (r: string)
    ensures |r| <= |s|
    ensures r != [] ==> r[0] != '/' && r[|r| - 1] != '/'
    ensures (forall i :: 0 <= i < |s| ==> s[i] != '/') ==> r == s
    ensures exists a :: SlashRuns(s, a, r)
    decreases |s|
  {
    if s != [] && s[0] == '/' then
      var r := TrimSlashes(s[1..]);
      assert exists a :: SlashRuns(s, a, r) by {
        var a :| SlashRuns(s[1..], a, r);
        SlashRunsFront(s, a, r);
      }
      r
    else if s != [] && s[|s| - 1] == '/' then
      var r := TrimSlashes(s[..|s| - 1]);
      assert exists a :: SlashRuns(s, a, r) by {
        var a :| SlashRuns(s[..|s| - 1], a, r);
        SlashRunsBack(s, a, r);
      }
      r
    else
      assert SlashRuns(s, 0, s);
      s
  }

  predicate AllSlash(s: string) {
    forall i :: 0 <= i < |s| ==> s[i] == '/'
  }

  /** `r` is `s` without the slashes before index `a` and after `r`. */
  predicate SlashRuns(s: string, a: nat, r: string) {
    && a + |r| <= |s|
    && r == s[a..a + |r|]
    && AllSlash(s[..a])
    && AllSlash(s[a + |r|..])
  }

  lemma SlashRunsFront(s: string, a: nat, r: string)
    requires s != [] && s[0] == '/' && SlashRuns(s[1..], a, r)
    ensures SlashRuns(s, a + 1, r)
  {
    assert s[1..][a..a + |r|] == s[a + 1..a + 1 + |r|];
    assert forall i :: 0 < i < a + 1 ==> s[i] == s[1..][..a][i - 1];
    assert forall i :: a + 1 + |r| <= i < |s| ==> s[i] == s[1..][a + |r|..][i - a - 1 - |r|];
  }

  lemma SlashRunsBack(s: string, a: nat, r: string)
    requires s != [] && s[|s| - 1] == '/' && SlashRuns(s[..|s| - 1], a, r)
    ensures SlashRuns(s, a, r)
  {
    var u := s[..|s| - 1];
    assert u[a..a + |r|] == s[a..a + |r|];
    assert u[..a] == s[..a];
    assert forall i :: a + |r| <= i < |s| - 1 ==> s[i] == u[a + |r|..][i - a - |r|];
  }

  /** The dataset name of a `dataset_results` key: a `datasets/` path gives
      the text between the first and the second `datasets/`, without leading
      and trailing slashes; an empty outcome falls back to the key itself,
      and an empty key to `default_dataset`. */
  function DatasetName(dsPath: string): (name: string)
    ensures name != []
    ensures !StartsWith(dsPath, DatasetsPrefix) && dsPath != [] ==> name == dsPath
    ensures dsPath == [] ==> name == DefaultDataset
    ensures StartsWith(dsPath, DatasetsPrefix) ==>
              var between := BeforeFirst(dsPath[|DatasetsPrefix|..], DatasetsPrefix);
              name == if TrimSlashes(between) != [] then TrimSlashes(between) else dsPath
  {
    var stripped :=
      if StartsWith(dsPath, DatasetsPrefix)
      then TrimSlashes(BeforeFirst(dsPath[|DatasetsPrefix|..], DatasetsPrefix))
      else dsPath;
    if stripped != [] then stripped
    else if dsPath != [] then dsPath
    else DefaultDataset
  }

  lemma DatasetNameExamples()
    ensures DatasetName("datasets/mmlu/") == "mmlu"
    ensures DatasetName("") == "default_dataset"
    ensures DatasetName("datasets//") == "datasets//"
  {
    DatasetNameMmlu();
    DatasetNameSlashes();
  }

  lemma DatasetNameMmlu()
    ensures DatasetName("datasets/mmlu/") == "mmlu"
  {
    assert StartsWith("datasets/mmlu/", DatasetsPrefix);
    assert "datasets/mmlu/"[9..] == "mmlu/";
    BeforeFirstShort("mmlu/", DatasetsPrefix);
    assert TrimSlashes("mmlu/") == "mmlu" by {
      var m := "mmlu";
      assert "mmlu/"[..4] == m;
      assert TrimSlashes("mmlu/") == TrimSlashes(m);
      assert m[0] != '/' && m[1] != '/' && m[2] != '/' && m[3] != '/';
    }
  }

  lemma DatasetNameSlashes()
    ensures DatasetName("datasets//") == "datasets//"
  {
    assert StartsWith("datasets//", DatasetsPrefix);
    assert "datasets//"[9..] == "/";
    BeforeFirstShort("/", DatasetsPrefix);
    assert TrimSlashes("/") == "" by {
      assert "/"[1..] == "";
    }
  }

  /** `` `${model} @ ${timestamp}` `` with `model` the truthy
      `doc.config?.model?.name` or `<unknown>`, and `timestamp` the truthy
      `doc.timestamp` or `<no-ts>`. */
  function SourceLabel(numStr: real -> string, doc: Json): string {
    var name := ModelName(doc);
    var ts := Get(doc, "timestamp");
    var model := if Truthy(name) then ToJsString(numStr, name.value) else "<unknown>";
    var stamp := if Truthy(ts) then ToJsString(numStr, ts.value) else "<no-ts>";
    model + " @ " + stamp
  }

  /** A falsy model name is written `<unknown>`. */
  lemma SourceLabelUnknownModel(numStr: real -> string, doc: Json)
    ensures !Truthy(ModelName(doc)) ==> StartsWith(SourceLabel(numStr, doc), "<unknown> @ ")
  {
    var ts := Get(doc, "timestamp");
    var stamp := if Truthy(ts) then ToJsString(numStr, ts.value) else "<no-ts>";
    if !Truthy(ModelName(doc)) {
      assert SourceLabel(numStr, doc) == "<unknown> @ " + stamp;
      StartsWithConcat("<unknown> @ ", stamp);
    }
  }

  /** A non-empty string model name starts the label. */
  lemma SourceLabelModel(numStr: real -> string, doc: Json)
    ensures var name := ModelName(doc);
            name.Some? && name.value.JStr? && name.value.s != [] ==>
              StartsWith(SourceLabel(numStr, doc), name.value.s + " @ ")
  {
    var name := ModelName(doc);
    var ts := Get(doc, "timestamp");
    var stamp := if Truthy(ts) then ToJsString(numStr, ts.value) else "<no-ts>";
    if name.Some? && name.value.JStr? && name.value.s != [] {
      assert Truthy(name);
      assert SourceLabel(numStr, doc) == name.value.s + " @ " + stamp;
      StartsWithConcat(name.value.s + " @ ", stamp);
    }
  }

  /** A non-empty string timestamp ends the label. */
  lemma SourceLabelTimestamp(numStr: real -> string, doc: Json)
    ensures var ts := Get(doc, "timestamp");
            ts.Some? && ts.value.JStr? && ts.value.s != [] ==>
              EndsWith(SourceLabel(numStr, doc), " @ " + ts.value.s)
  {
    var name := ModelName(doc);
    var ts := Get(doc, "timestamp");
    var model := if Truthy(name) then ToJsString(numStr, name.value) else "<unknown>";
    if ts.Some? && ts.value.JStr? && ts.value.s != [] {
      assert Truthy(ts) && ToJsString(numStr, ts.value) == ts.value.s;
      assert SourceLabel(numStr, doc) == model + " @ " + ts.value.s;
      assert model + " @ " + ts.value.s == model + (" @ " + ts.value.s);
      EndsWithConcat(model, " @ " + ts.value.s);
    }
  }

  function ModelName(doc: Json): Option<Json> {
    match Get(doc, "config")
    case None => None
    case Some(config) =>
      match Get(config, "model")
      case None => None
      case Some(model) => Get(model, "name")
  }

  /** `Object.entries(doc.dataset_results || {})` */
  function DatasetEntries(doc: Json): seq<(string, Json)> {
    var ds := Get(doc, "dataset_results");
    if Truthy(ds) then Entries(ds.value) else []
  }

  // --------------------------------------------------------------- entries

  /** What `for (const item of results)` walks, with `results` taken as
      `dsPayload.results || []`. */
  datatype ResultsValue =
    | Items(items: seq<Json>)  // an array, or a falsy value read as `[]`
    | Chars(text: string)      // a non-empty string: its characters
    | Uniterable               // a truthy number, `true` or a plain object

  function ResultsOf(payload: Json): (r: ResultsValue)
    ensures r.Chars? ==> r.text != []
  {
    var results := Get(payload, "results");
    if !Truthy(results) then Items([])
    else
      match results.value
      case JArr(xs) => Items(xs)
      case JStr(s) => Chars(s)
      case _ => Uniterable
  }

  /** An entry that yields a record: a non-null object whose `file` and
      `accuracy_mean` are neither missing nor `null`. */
  predicate Qualifies(item: Json) {
    IsObjectType(item) && !IsNullish(Get(item, "file")) && !IsNullish(Get(item, "accuracy_mean"))
  }

  /** The well-formedness every emitted record has. */
  predicate RecordOf(r: Record, dataset: string, srcLabel: string) {
    && r.dataset == dataset
    && r.sourceLabel == srcLabel
    && '/' !in r.file
    && r.category == Category(r.file)
  }

  /** `s.split(c)[0]` begins `s` and is all of it or is followed by `c`. */
  lemma {:induction false} SplitFirstIsPrefix(s: string, c: char)
    ensures StartsWith(s, Split(s, c)[0])
    ensures |Split(s, c)| == 1 ==> Split(s, c)[0] == s
    ensures |Split(s, c)| > 1 ==> |Split(s, c)[0]| < |s| && s[|Split(s, c)[0]|] == c
  {
    if |s| > 0 && s[0] != c {
      SplitFirstIsPrefix(s[1..], c);
      assert s == [s[0]] + s[1..];
    }
  }

  /** `s.split(c).pop()` ends `s`. */
  lemma {:induction false} LastSegmentIsSuffix(s: string, c: char)
    ensures EndsWith(s, Split(s, c)[|Split(s, c)| - 1])
  {
    if |s| > 0 {
      LastSegmentIsSuffix(s[1..], c);
      var rest := Split(s[1..], c);
      if s[0] != c && |rest| == 1 {
        JoinSplit(s[1..], c);
        assert [s[0]] + s[1..] == s;
      }
    }
  }

  /** `s.split(c).pop()` is all of `s`, or comes right after a `c`. */
  lemma {:induction false} LastSegmentAfterSeparator(s: string, c: char)
    ensures |Split(s, c)| == 1 ==> Split(s, c)[0] == s
    ensures var pieces := Split(s, c);
            var last := pieces[|pieces| - 1];
            |pieces| > 1 ==> |last| < |s| && s[|s| - |last| - 1] == c
  {
    if |s| > 0 {
      LastSegmentAfterSeparator(s[1..], c);
      var rest := Split(s[1..], c);
      var pieces := Split(s, c);
      if s[0] == c {
        assert pieces == [""] + rest;
      } else {
        assert pieces == [[s[0]] + rest[0]] + rest[1..];
        if |rest| == 1 {
          assert [s[0]] + s[1..] == s;
        }
      }
      if |rest| > 1 {
        var last := rest[|rest| - 1];
        assert pieces[|pieces| - 1] == last;
        assert s[|s| - |last| - 1] == s[1..][|s| - 1 - |last| - 1];
      }
    }
  }

  /** `filePath.split('/').pop()`: the last `/` segment of the path, which
      is the whole path or comes right after its last `/`. */
  function FileName(path: string): (f: string)
    ensures '/' !in f && EndsWith(path, f)
    ensures f == path || path[|path| - |f| - 1] == '/'
  {
    var segments := Split(path, '/');
    LastSegmentIsSuffix(path, '/');
    LastSegmentAfterSeparator(path, '/');
    segments[|segments| - 1]
  }

  /** `fname.split('.')[0]`: the file name's text before its first `.`, which
      is the whole name or is followed by a `.`. */
  function Category(fname: string): (c: string)
    ensures '.' !in c && StartsWith(fname, c)
    ensures c == fname || fname[|c|] == '.'
  {
    SplitFirstIsPrefix(fname, '.');
    Split(fname, '.')[0]
  }

  /** A qualifying entry whose `file` is a string: one that yields a record. */
  predicate Emits(item: Json) {
    Qualifies(item) && Get(item, "file").value.JStr?
  }

  /** The record `data.push` adds for an entry that yields one. */
  function RecordFor(item: Json, dataset: string, srcLabel: string, numOf: Json -> real): Record
    requires Emits(item)
  {
    var fname := FileName(Get(item, "file").value.s);
    Record(dataset, Category(fname), fname, ParseFloat(numOf, Get(item, "accuracy_mean").value), srcLabel)
  }

  lemma RecordForOf(item: Json, dataset: string, srcLabel: string, numOf: Json -> real)
    requires Emits(item)
    ensures RecordOf(RecordFor(item, dataset, srcLabel, numOf), dataset, srcLabel)
  {
  }

  /** The body of the item loop: skip, throw, or one record whose file is the
      last `/` segment of `file` and whose category is that segment's text
      before the first `.`. */
  function ItemRecord(item: Json, dataset: string, srcLabel: string, numOf: Json -> real)
    : (r: Result<Option<Record>, ExtractError>)
    ensures !Qualifies(item) <==> r == Ok(None)
    ensures r.Err? <==> Qualifies(item) && !Get(item, "file").value.JStr?
    ensures r.Err? ==> r.error == FileNotString
    ensures r.Ok? && r.value.Some? ==>
              var rec := r.value.value;
              RecordOf(rec, dataset, srcLabel)
              && rec.accuracyMean == ParseFloat(numOf, Get(item, "accuracy_mean").value)
              && rec.file == FileName(Get(item, "file").value.s)
              && rec.category == Category(rec.file)
  {
    if !Qualifies(item) then Ok(None)
    else if !Get(item, "file").value.JStr? then Err(FileNotString)
    else Ok(Some(RecordFor(item, dataset, srcLabel, numOf)))
  }

  /** The item loop from the records pushed so far (`acc`) over the remaining items. */
  function ItemsFrom(acc: seq<Record>, xs: seq<Json>, dataset: string, srcLabel: string, numOf: Json -> real)
    : Result<seq<Record>, ExtractError>
    decreases |xs|
  {
    if |xs| == 0 then Ok(acc)
    else
      match ItemRecord(xs[0], dataset, srcLabel, numOf)
      case Err(e) => Err(e)
      case Ok(None) => ItemsFrom(acc, xs[1..], dataset, srcLabel, numOf)
      case Ok(Some(r)) => ItemsFrom(acc + [r], xs[1..], dataset, srcLabel, numOf)
  }

  /** The number of entries that qualify. */
  function CountQualifying(xs: seq<Json>): nat {
    if |xs| == 0 then 0 else (if Qualifies(xs[0]) then 1 else 0) + CountQualifying(xs[1..])
  }

  /** A qualifying entry whose `file` is not a string, on which the loop throws. */
  predicate BadFile(item: Json) {
    Qualifies(item) && !Get(item, "file").value.JStr?
  }

  lemma BadFileShift(xs: seq<Json>)
    requires |xs| > 0
    ensures (exists k :: 0 <= k < |xs| && BadFile(xs[k])) <==>
              BadFile(xs[0]) || exists k :: 0 <= k < |xs[1..]| && BadFile(xs[1..][k])
  {
    if exists k :: 0 <= k < |xs[1..]| && BadFile(xs[1..][k]) {
      var k :| 0 <= k < |xs[1..]| && BadFile(xs[1..][k]);
      assert xs[k + 1] == xs[1..][k];
    }
    if exists k :: 0 <= k < |xs| && BadFile(xs[k]) {
      var k :| 0 <= k < |xs| && BadFile(xs[k]);
      if k != 0 {
        assert xs[1..][k - 1] == xs[k];
      }
    }
  }

  /** The item loop throws exactly when a qualifying entry's `file` is not a string. */
  lemma {:induction false} ItemsFromFails(acc: seq<Record>, xs: seq<Json>, dataset: string, srcLabel: string,
                                          numOf: Json -> real)
    ensures ItemsFrom(acc, xs, dataset, srcLabel, numOf).Err? <==> exists k :: 0 <= k < |xs| && BadFile(xs[k])
    decreases |xs|
  {
    if |xs| > 0 {
      BadFileShift(xs);
      var r0 := ItemRecord(xs[0], dataset, srcLabel, numOf);
      if r0.Ok? {
        var acc' := if r0.value.Some? then acc + [r0.value.value] else acc;
        assert ItemsFrom(acc, xs, dataset, srcLabel, numOf) == ItemsFrom(acc', xs[1..], dataset, srcLabel, numOf);
        ItemsFromFails(acc', xs[1..], dataset, srcLabel, numOf);
      }
    }
  }

  /** The records the item loop pushes, read as a filter and a map: one per
      entry that yields a record, in the order of the entries. */
  function Emitted(xs: seq<Json>, dataset: string, srcLabel: string, numOf: Json -> real): seq<Record> {
    if |xs| == 0 then []
    else (if Emits(xs[0]) then [RecordFor(xs[0], dataset, srcLabel, numOf)] else [])
         + Emitted(xs[1..], dataset, srcLabel, numOf)
  }

  predicate AllRecordOf(rs: seq<Record>, dataset: string, srcLabel: string) {
    forall k :: 0 <= k < |rs| ==> RecordOf(rs[k], dataset, srcLabel)
  }

  /** Every emitted record is well-formed. */
  lemma {:induction false} EmittedRecordOf(xs: seq<Json>, dataset: string, srcLabel: string, numOf: Json -> real)
    ensures AllRecordOf(Emitted(xs, dataset, srcLabel, numOf), dataset, srcLabel)
    decreases |xs|
  {
    if |xs| > 0 {
      EmittedRecordOf(xs[1..], dataset, srcLabel, numOf);
      var rest := Emitted(xs[1..], dataset, srcLabel, numOf);
      if Emits(xs[0]) {
        var r0 := RecordFor(xs[0], dataset, srcLabel, numOf);
        RecordForOf(xs[0], dataset, srcLabel, numOf);
        AllRecordOfCons(r0, rest, dataset, srcLabel);
      }
    }
  }

  lemma AllRecordOfCons(r0: Record, rest: seq<Record>, dataset: string, srcLabel: string)
    requires RecordOf(r0, dataset, srcLabel) && AllRecordOf(rest, dataset, srcLabel)
    ensures AllRecordOf([r0] + rest, dataset, srcLabel)
  {
    assert forall k :: 1 <= k < |rest| + 1 ==> ([r0] + rest)[k] == rest[k - 1];
  }

  /** Without an entry the loop throws on, every qualifying entry emits one record. */
  lemma {:induction false} EmittedCount(xs: seq<Json>, dataset: string, srcLabel: string, numOf: Json -> real)
    requires forall k :: 0 <= k < |xs| ==> !BadFile(xs[k])
    ensures |Emitted(xs, dataset, srcLabel, numOf)| == CountQualifying(xs)
    decreases |xs|
  {
    if |xs| > 0 {
      assert forall k :: 0 <= k < |xs[1..]| ==> xs[1..][k] == xs[k + 1];
      assert !BadFile(xs[0]);
      EmittedCount(xs[1..], dataset, srcLabel, numOf);
    }
  }

  /** The item loop appends exactly the emitted records to what was pushed before. */
  lemma {:induction false} ItemsFromRecords(acc: seq<Record>, xs: seq<Json>, dataset: string, srcLabel: string,
                                            numOf: Json -> real)
    ensures var r := ItemsFrom(acc, xs, dataset, srcLabel, numOf);
            r.Ok? ==> r.value == acc + Emitted(xs, dataset, srcLabel, numOf)
    decreases |xs|
  {
    if |xs| > 0 {
      ItemsFromStep(acc, xs, dataset, srcLabel, numOf);
      var rest := Emitted(xs[1..], dataset, srcLabel, numOf);
      if !Emits(xs[0]) {
        assert Emitted(xs, dataset, srcLabel, numOf) == [] + rest == rest;
        ItemsFromRecords(acc, xs[1..], dataset, srcLabel, numOf);
      } else {
        var r := RecordFor(xs[0], dataset, srcLabel, numOf);
        assert Emitted(xs, dataset, srcLabel, numOf) == [r] + rest;
        assert acc + [r] + rest == acc + ([r] + rest);
        ItemsFromRecords(acc + [r], xs[1..], dataset, srcLabel, numOf);
      }
    }
  }

  /** One turn of the item loop: skip, push the entry's record, or throw. */
  lemma ItemsFromStep(acc: seq<Record>, xs: seq<Json>, dataset: string, srcLabel: string, numOf: Json -> real)
    requires |xs| > 0
    ensures ItemsFrom(acc, xs, dataset, srcLabel, numOf) ==
              if !Qualifies(xs[0]) then ItemsFrom(acc, xs[1..], dataset, srcLabel, numOf)
              else if Emits(xs[0]) then ItemsFrom(acc + [RecordFor(xs[0], dataset, srcLabel, numOf)], xs[1..], dataset, srcLabel, numOf)
              else Err(FileNotString)
  {
    if Qualifies(xs[0]) && Emits(xs[0]) {
      assert ItemRecord(xs[0], dataset, srcLabel, numOf) == Ok(Some(RecordFor(xs[0], dataset, srcLabel, numOf)));
    }
  }

  /** The item loop keeps what was pushed before it and appends exactly the
      emitted records: one well-formed record per qualifying entry, in order. */
  lemma ItemsFromAppends(acc: seq<Record>, xs: seq<Json>, dataset: string, srcLabel: string, numOf: Json -> real)
    ensures var r := ItemsFrom(acc, xs, dataset, srcLabel, numOf);
            r.Ok? ==> && r.value == acc + Emitted(xs, dataset, srcLabel, numOf)
                      && |r.value| == |acc| + CountQualifying(xs)
                      && forall k :: |acc| <= k < |r.value| ==> RecordOf(r.value[k], dataset, srcLabel)
  {
    var r := ItemsFrom(acc, xs, dataset, srcLabel, numOf);
    ItemsFromRecords(acc, xs, dataset, srcLabel, numOf);
    ItemsFromFails(acc, xs, dataset, srcLabel, numOf);
    if r.Ok? {
      var e := Emitted(xs, dataset, srcLabel, numOf);
      EmittedCount(xs, dataset, srcLabel, numOf);
      EmittedRecordOf(xs, dataset, srcLabel, numOf);
      assert forall k :: |acc| <= k < |r.value| ==> r.value[k] == e[k - |acc|];
    }
  }

  /** An entry whose `accuracy_mean` the fallback average reads. */
  predicate HasAccuracy(item: Json) {
    !IsNullish(Get(item, "accuracy_mean"))
  }

  /** The parsed `accuracy_mean` of every result entry that has one, in order. */
  function AccuracyValues(xs: seq<Json>, numOf: Json -> real): (r: seq<real>)
    ensures |r| > 0 <==> exists k :: 0 <= k < |xs| && HasAccuracy(xs[k])
  {
    if |xs| == 0 then []
    else
      assert forall k :: 1 <= k < |xs| ==> xs[k] == xs[1..][k - 1];
      (if HasAccuracy(xs[0]) then [ParseFloat(numOf, Get(xs[0], "accuracy_mean").value)] else [])
      + AccuracyValues(xs[1..], numOf)
  }

  /** `results.map(item => item.accuracy_mean).filter(v => v != null).map(parseFloat)`:
      reading `accuracy_mean` of a `null` element throws. Entries without a
      `file` count too. */
  function FallbackValues(xs: seq<Json>, numOf: Json -> real): (r: Result<seq<real>, ExtractError>)
    ensures r.Err? <==> JNull in xs
    ensures r.Ok? ==> r.value == AccuracyValues(xs, numOf)
    ensures r.Ok? ==> (|r.value| > 0 <==> exists k :: 0 <= k < |xs| && HasAccuracy(xs[k]))
  {
    if |xs| == 0 then Ok([])
    else if xs[0].JNull? then Err(NullResultEntry)
    else
      var rest := FallbackValues(xs[1..], numOf);
      assert forall k :: 1 <= k < |xs| ==> xs[k] == xs[1..][k - 1];
      assert xs == [xs[0]] + xs[1..];
      match rest
      case Err(e) => Err(e)
      case Ok(vs) =>
        Ok((if HasAccuracy(xs[0]) then [ParseFloat(numOf, Get(xs[0], "accuracy_mean").value)] else []) + vs)
  }

  /** The average a payload contributes when it has no explicit
      `average_accuracy`: the mean of the fallback values, if any. */
  function FallbackAverage(xs: seq<Json>, numOf: Json -> real): (r: Result<Option<real>, ExtractError>)
    ensures r.Err? <==> JNull in xs
    ensures r.Ok? ==> (r.value.Some? <==> exists k :: 0 <= k < |xs| && HasAccuracy(xs[k]))
    ensures r.Ok? && r.value.Some? ==> r.value.value == Seqs.Mean(AccuracyValues(xs, numOf))
  {
    if |xs| == 0 then Ok(None)
    else
      match FallbackValues(xs, numOf)
      case Err(e) => Err(e)
      case Ok(vs) => if |vs| > 0 then Ok(Some(Seqs.Mean(vs))) else Ok(None)
  }

  /** One turn of the `dataset_results` loop. */
  function EntryStep(acc: Extraction, entry: (string, Json), srcLabel: string, numOf: Json -> real)
    : Result<Extraction, ExtractError>
  {
    var (path, payload) := entry;
    if !IsObjectType(payload) then Ok(acc)
    else
      var ds := DatasetName(path);
      var avg := Get(payload, "average_accuracy");
      match ResultsOf(payload)
      case Uniterable => Err(ResultsNotIterable)
      case Chars(_) =>
        // every character is a string and is skipped; `results.map` then throws
        if IsNullish(avg) then Err(ResultsNotArray)
        else Ok(Extraction(acc.data, acc.meta[ds := ParseFloat(numOf, avg.value)]))
      case Items(xs) =>
        match ItemsFrom(acc.data, xs, ds, srcLabel, numOf)
        case Err(e) => Err(e)
        case Ok(data) =>
          if !IsNullish(avg) then Ok(Extraction(data, acc.meta[ds := ParseFloat(numOf, avg.value)]))
          else
            match FallbackAverage(xs, numOf)
            case Err(e) => Err(e)
            case Ok(None) => Ok(Extraction(data, acc.meta))
            case Ok(Some(m)) => Ok(Extraction(data, acc.meta[ds := m]))
  }

  /** The `dataset_results` loop from the state `acc` over the remaining entries. */
  function ExtractFrom(acc: Extraction, entries: seq<(string, Json)>, srcLabel: string, numOf: Json -> real)
    : Result<Extraction, ExtractError>
    decreases |entries|
  {
    if |entries| == 0 then Ok(acc)
    else
      match EntryStep(acc, entries[0], srcLabel, numOf)
      case Err(e) => Err(e)
      case Ok(next) => ExtractFrom(next, entries[1..], srcLabel, numOf)
  }

  /** What `extractRecords(doc)` returns or throws. */
  function Extracted(doc: Json, numStr: real -> string, numOf: Json -> real): Result<Extraction, ExtractError> {
    ExtractFrom(Extraction([], map[]), DatasetEntries(doc), SourceLabel(numStr, doc), numOf)
  }

  // ---------------------------------------------------------- properties

  /** What every record of a document satisfies: the document's label, a
      non-empty dataset name, a slash-free file name and, as category, the
      file name's text before its first dot. */
  predicate WellFormed(r: Record, srcLabel: string) {
    && r.sourceLabel == srcLabel
    && r.dataset != []
    && '/' !in r.file
    && r.category == Category(r.file)
  }

  /** The records a list of `dataset_results` entries yields, counted. */
  function TotalQualifying(entries: seq<(string, Json)>): nat {
    if |entries| == 0 then 0
    else
      var payload := entries[0].1;
      (if IsObjectType(payload) && ResultsOf(payload).Items? then CountQualifying(ResultsOf(payload).items) else 0)
      + TotalQualifying(entries[1..])
  }

  /** The records one `dataset_results` entry adds: those its result entries
      emit, under the entry's dataset name. */
  function EntryRecords(entry: (string, Json), srcLabel: string, numOf: Json -> real): seq<Record> {
    var (path, payload) := entry;
    if IsObjectType(payload) && ResultsOf(payload).Items?
    then Emitted(ResultsOf(payload).items, DatasetName(path), srcLabel, numOf)
    else []
  }

  /** The records of a list of entries, entry after entry. */
  function Flat(entries: seq<(string, Json)>, srcLabel: string, numOf: Json -> real): seq<Record> {
    if |entries| == 0 then []
    else EntryRecords(entries[0], srcLabel, numOf) + Flat(entries[1..], srcLabel, numOf)
  }

  /** One entry appends the records it yields. */
  lemma EntryStepData(acc: Extraction, entry: (string, Json), srcLabel: string, numOf: Json -> real)
    ensures var r := EntryStep(acc, entry, srcLabel, numOf);
            r.Ok? ==> r.value.data == acc.data + EntryRecords(entry, srcLabel, numOf)
  {
    var (path, payload) := entry;
    if IsObjectType(payload) && ResultsOf(payload).Items? {
      ItemsFromRecords(acc.data, ResultsOf(payload).items, DatasetName(path), srcLabel, numOf);
    } else {
      assert acc.data + [] == acc.data;
    }
  }

  lemma EntryStepShape(acc: Extraction, entry: (string, Json), srcLabel: string, numOf: Json -> real)
    ensures var r := EntryStep(acc, entry, srcLabel, numOf);
            var payload := entry.1;
            var n := if IsObjectType(payload) && ResultsOf(payload).Items? then CountQualifying(ResultsOf(payload).items) else 0;
            r.Ok? ==> |r.value.data| == |acc.data| + n && r.value.data[..|acc.data|] == acc.data
                      && forall k :: |acc.data| <= k < |r.value.data| ==> WellFormed(r.value.data[k], srcLabel)
  {
    var (path, payload) := entry;
    var r := EntryStep(acc, entry, srcLabel, numOf);
    if r.Ok? && IsObjectType(payload) && ResultsOf(payload).Items? {
      var xs := ResultsOf(payload).items;
      var ds := DatasetName(path);
      var items := ItemsFrom(acc.data, xs, ds, srcLabel, numOf);
      assert items.Ok? && r.value.data == items.value;
      ItemsFromAppends(acc.data, xs, ds, srcLabel, numOf);
      assert |r.value.data| == |acc.data| + CountQualifying(xs);
      assert r.value.data[..|acc.data|] == acc.data;
      forall k | |acc.data| <= k < |r.value.data| ensures WellFormed(r.value.data[k], srcLabel) {
        assert RecordOf(r.value.data[k], ds, srcLabel);
      }
    }
  }

  /** The entry loop appends exactly the records its entries yield, in order. */
  lemma {:induction false} ExtractFromData(acc: Extraction, entries: seq<(string, Json)>, srcLabel: string,
                                           numOf: Json -> real)
    ensures var r := ExtractFrom(acc, entries, srcLabel, numOf);
            r.Ok? ==> r.value.data == acc.data + Flat(entries, srcLabel, numOf)
    decreases |entries|
  {
    if |entries| == 0 {
      assert acc.data + [] == acc.data;
    } else {
      var step := EntryStep(acc, entries[0], srcLabel, numOf);
      if step.Ok? {
        ExtractFromUnfold(acc, entries, srcLabel, numOf);
        EntryStepData(acc, entries[0], srcLabel, numOf);
        ExtractFromData(step.value, entries[1..], srcLabel, numOf);
        var r := ExtractFrom(step.value, entries[1..], srcLabel, numOf);
        if r.Ok? {
          Seqs.AppendStep(acc.data, step.value.data, EntryRecords(entries[0], srcLabel, numOf),
                          r.value.data, Flat(entries[1..], srcLabel, numOf));
        }
      }
    }
  }

  /** The entry loop after a first turn that does not throw. */
  lemma ExtractFromUnfold(acc: Extraction, entries: seq<(string, Json)>, srcLabel: string, numOf: Json -> real)
    requires |entries| > 0 && EntryStep(acc, entries[0], srcLabel, numOf).Ok?
    ensures ExtractFrom(acc, entries, srcLabel, numOf)
              == ExtractFrom(EntryStep(acc, entries[0], srcLabel, numOf).value, entries[1..], srcLabel, numOf)
  {
  }

  /** The entry loop keeps what came before and appends one well-formed record
      per qualifying result entry. */
  lemma {:induction false} ExtractFromShape(acc: Extraction, entries: seq<(string, Json)>, srcLabel: string,
                                            numOf: Json -> real)
    ensures var r := ExtractFrom(acc, entries, srcLabel, numOf);
            r.Ok? ==> |r.value.data| == |acc.data| + TotalQualifying(entries)
                      && r.value.data[..|acc.data|] == acc.data
                      && forall k :: |acc.data| <= k < |r.value.data| ==> WellFormed(r.value.data[k], srcLabel)
    decreases |entries|
  {
    if |entries| > 0 {
      var step := EntryStep(acc, entries[0], srcLabel, numOf);
      if step.Ok? {
        EntryStepShape(acc, entries[0], srcLabel, numOf);
        var mid := step.value.data;
        var r := ExtractFrom(step.value, entries[1..], srcLabel, numOf);
        ExtractFromUnfold(acc, entries, srcLabel, numOf);
        ExtractFromShape(step.value, entries[1..], srcLabel, numOf);
        if r.Ok? {
          var data := r.value.data;
          assert data[..|mid|][..|acc.data|] == data[..|acc.data|];
          forall k | |acc.data| <= k < |data| ensures WellFormed(data[k], srcLabel) {
            if k < |mid| {
              assert data[k] == data[..|mid|][k] == mid[k];
            }
          }
        }
      }
    }
  }

  /** Every record of a document carries its source label, and there is
      exactly one per qualifying result entry. */
  lemma ExtractedRecords(doc: Json, numStr: real -> string, numOf: Json -> real)
    ensures var r := Extracted(doc, numStr, numOf);
            r.Ok? ==> && r.value.data == Flat(DatasetEntries(doc), SourceLabel(numStr, doc), numOf)
                      && |r.value.data| == TotalQualifying(DatasetEntries(doc))
                      && forall k :: 0 <= k < |r.value.data| ==> WellFormed(r.value.data[k], SourceLabel(numStr, doc))
  {
    var flat := Flat(DatasetEntries(doc), SourceLabel(numStr, doc), numOf);
    ExtractFromData(Extraction([], map[]), DatasetEntries(doc), SourceLabel(numStr, doc), numOf);
    ExtractFromShape(Extraction([], map[]), DatasetEntries(doc), SourceLabel(numStr, doc), numOf);
    assert [] + flat == flat;
  }

  /** An entry that puts its dataset into `meta`: an object payload with an
      explicit `average_accuracy`, or with an array of results one of which
      has an `accuracy_mean`. */
  predicate ContributesAverage(entry: (string, Json), ds: string) {
    var payload := entry.1;
    && IsObjectType(payload)
    && DatasetName(entry.0) == ds
    && (|| !IsNullish(Get(payload, "average_accuracy"))
        || (ResultsOf(payload).Items?
            && exists k :: 0 <= k < |ResultsOf(payload).items| && HasAccuracy(ResultsOf(payload).items[k])))
  }

  /** The average an object payload puts into `meta`: its explicit
      `average_accuracy`, else the mean of its results' `accuracy_mean`s when
      there are any. */
  function Contribution(payload: Json, numOf: Json -> real): Option<real> {
    var avg := Get(payload, "average_accuracy");
    if !IsNullish(avg) then Some(ParseFloat(numOf, avg.value))
    else if ResultsOf(payload).Items? && |AccuracyValues(ResultsOf(payload).items, numOf)| > 0
    then Some(Seqs.Mean(AccuracyValues(ResultsOf(payload).items, numOf)))
    else None
  }

  lemma ContributesIff(entry: (string, Json), ds: string, numOf: Json -> real)
    ensures ContributesAverage(entry, ds) <==>
              IsObjectType(entry.1) && DatasetName(entry.0) == ds && Contribution(entry.1, numOf).Some?
  {
    var payload := entry.1;
    if ResultsOf(payload).Items? {
      var vs := AccuracyValues(ResultsOf(payload).items, numOf);
    }
  }

  /** One entry adds its dataset to `meta` when it contributes an average, with
      that average, overwriting an earlier one, and changes nothing else. */
  lemma EntryStepMetaValue(acc: Extraction, entry: (string, Json), srcLabel: string, numOf: Json -> real)
    ensures var r := EntryStep(acc, entry, srcLabel, numOf);
            var c := Contribution(entry.1, numOf);
            r.Ok? ==> r.value.meta == if IsObjectType(entry.1) && c.Some? then acc.meta[DatasetName(entry.0) := c.value]
                                      else acc.meta
  {
    var (path, payload) := entry;
    var r := EntryStep(acc, entry, srcLabel, numOf);
    if r.Ok? && IsObjectType(payload) && IsNullish(Get(payload, "average_accuracy")) {
      // without an explicit average only an array of results gets this far,
      // and the fallback mean decides
      assert ResultsOf(payload).Items?;
      var xs := ResultsOf(payload).items;
      var fallback := FallbackAverage(xs, numOf);
      assert fallback.Ok?;
      assert r.value.meta == if fallback.value.Some? then acc.meta[DatasetName(path) := fallback.value.value] else acc.meta;
    }
  }

  /** One entry adds its dataset to `meta` exactly when it contributes an average. */
  lemma EntryStepMeta(acc: Extraction, entry: (string, Json), srcLabel: string, numOf: Json -> real)
    ensures var r := EntryStep(acc, entry, srcLabel, numOf);
            r.Ok? ==> forall ds :: ds in r.value.meta <==> ds in acc.meta || ContributesAverage(entry, ds)
  {
    EntryStepMetaValue(acc, entry, srcLabel, numOf);
    forall ds {
      ContributesIff(entry, ds, numOf);
    }
  }

  /** A dataset has an average exactly when some entry of that name has an
      explicit one or a result with an `accuracy_mean`. */
  lemma {:induction false} ExtractFromMeta(acc: Extraction, entries: seq<(string, Json)>, srcLabel: string,
                                           numOf: Json -> real)
    ensures var r := ExtractFrom(acc, entries, srcLabel, numOf);
            r.Ok? ==> forall ds :: ds in r.value.meta <==>
                        ds in acc.meta || exists i :: 0 <= i < |entries| && ContributesAverage(entries[i], ds)
    decreases |entries|
  {
    if |entries| > 0 {
      EntryStepMeta(acc, entries[0], srcLabel, numOf);
      var step := EntryStep(acc, entries[0], srcLabel, numOf);
      if step.Ok? {
        ExtractFromMeta(step.value, entries[1..], srcLabel, numOf);
        assert forall i :: 1 <= i < |entries| ==> entries[i] == entries[1..][i - 1];
      }
    }
  }

  /** An average from before the loop survives when no entry contributes one
      for that dataset. */
  lemma {:induction false} ExtractFromKeeps(acc: Extraction, entries: seq<(string, Json)>, srcLabel: string,
                                            numOf: Json -> real, ds: string)
    requires ds in acc.meta
    requires forall i :: 0 <= i < |entries| ==> !ContributesAverage(entries[i], ds)
    ensures var r := ExtractFrom(acc, entries, srcLabel, numOf);
            r.Ok? ==> ds in r.value.meta && r.value.meta[ds] == acc.meta[ds]
    decreases |entries|
  {
    if |entries| > 0 {
      var step := EntryStep(acc, entries[0], srcLabel, numOf);
      if step.Ok? {
        EntryStepMetaValue(acc, entries[0], srcLabel, numOf);
        ContributesIff(entries[0], ds, numOf);
        var rest := entries[1..];
        ExtractFromUnfold(acc, entries, srcLabel, numOf);
        assert forall i :: 0 <= i < |rest| ==> rest[i] == entries[i + 1];
        ExtractFromKeeps(step.value, rest, srcLabel, numOf, ds);
      }
    }
  }

  /** A dataset's average comes from the last entry that contributes one. */
  /** The last contributor for `ds` after the first entry is the one before it in the tail. */
  lemma LastContributorShift(entries: seq<(string, Json)>, i: nat, ds: string)
    requires 0 < i < |entries| && ContributesAverage(entries[i], ds)
    requires forall j :: i < j < |entries| ==> !ContributesAverage(entries[j], ds)
    ensures ContributesAverage(entries[1..][i - 1], ds)
    ensures forall j :: i - 1 < j < |entries[1..]| ==> !ContributesAverage(entries[1..][j], ds)
  {
    assert entries[1..][i - 1] == entries[i];
    forall j | i - 1 < j < |entries[1..]| ensures !ContributesAverage(entries[1..][j], ds) {
      assert entries[1..][j] == entries[j + 1];
    }
  }

  lemma {:induction false} ExtractFromLast(acc: Extraction, entries: seq<(string, Json)>, srcLabel: string,
                                           numOf: Json -> real, i: nat, ds: string)
    requires i < |entries| && ContributesAverage(entries[i], ds)
    requires forall j :: i < j < |entries| ==> !ContributesAverage(entries[j], ds)
    ensures var r := ExtractFrom(acc, entries, srcLabel, numOf);
            r.Ok? ==> ds in r.value.meta && Contribution(entries[i].1, numOf) == Some(r.value.meta[ds])
    decreases |entries|
  {
    if i == 0 {
      ExtractFromLastFirst(acc, entries, srcLabel, numOf, ds);
    } else {
      var step := EntryStep(acc, entries[0], srcLabel, numOf);
      if step.Ok? {
        LastContributorShift(entries, i, ds);
        ExtractFromUnfold(acc, entries, srcLabel, numOf);
        ExtractFromLast(step.value, entries[1..], srcLabel, numOf, i - 1, ds);
      }
    }
  }

  /** The case of ExtractFromLast where the first entry is the last contributor. */
  lemma ExtractFromLastFirst(acc: Extraction, entries: seq<(string, Json)>, srcLabel: string,
                             numOf: Json -> real, ds: string)
    requires |entries| > 0 && ContributesAverage(entries[0], ds)
    requires forall j :: 0 < j < |entries| ==> !ContributesAverage(entries[j], ds)
    ensures var r := ExtractFrom(acc, entries, srcLabel, numOf);
            r.Ok? ==> ds in r.value.meta && Contribution(entries[0].1, numOf) == Some(r.value.meta[ds])
  {
    var step := EntryStep(acc, entries[0], srcLabel, numOf);
    if step.Ok? {
      EntryStepMetaValue(acc, entries[0], srcLabel, numOf);
      ContributesIff(entries[0], ds, numOf);
      var c := Contribution(entries[0].1, numOf);
      assert step.value.meta == acc.meta[ds := c.value];
      var rest := entries[1..];
      ExtractFromUnfold(acc, entries, srcLabel, numOf);
      forall j | 0 <= j < |rest| ensures !ContributesAverage(rest[j], ds) {
        assert rest[j] == entries[j + 1];
      }
      ExtractFromKeeps(step.value, rest, srcLabel, numOf, ds);
    }
  }

  /** `meta` holds exactly the datasets some entry contributes an average for,
      each with the average of the last such entry. */
  lemma ExtractedMeta(doc: Json, numStr: real -> string, numOf: Json -> real)
    ensures var r := Extracted(doc, numStr, numOf);
            var entries := DatasetEntries(doc);
            r.Ok? ==> forall ds :: ds in r.value.meta <==>
                        exists i :: 0 <= i < |entries| && ContributesAverage(entries[i], ds)
    ensures var r := Extracted(doc, numStr, numOf);
            var entries := DatasetEntries(doc);
            r.Ok? ==> forall i, ds :: && 0 <= i < |entries| && ContributesAverage(entries[i], ds)
                                      && (forall j :: i < j < |entries| ==> !ContributesAverage(entries[j], ds))
                                      ==> ds in r.value.meta && Contribution(entries[i].1, numOf) == Some(r.value.meta[ds])
  {
    var entries := DatasetEntries(doc);
    var srcLabel := SourceLabel(numStr, doc);
    ExtractFromMeta(Extraction([], map[]), entries, srcLabel, numOf);
    forall i, ds | && 0 <= i < |entries| && ContributesAverage(entries[i], ds)
                   && (forall j :: i < j < |entries| ==> !ContributesAverage(entries[j], ds))
      ensures var r := Extracted(doc, numStr, numOf);
              r.Ok? ==> ds in r.value.meta && Contribution(entries[i].1, numOf) == Some(r.value.meta[ds])
    {
      ExtractFromLast(Extraction([], map[]), entries, srcLabel, numOf, i, ds);
    }
  }

  /** A `dataset_results` entry on which `extractRecords` throws, whatever came
      before it: an object payload whose `results` is truthy but not iterable,
      a non-empty string without an explicit average (`results.map` is not a
      function), or an array holding a qualifying entry with a non-string
      `file` (`split` is not a function) or, without an explicit average, a
      `null` (reading its `accuracy_mean` fails). */
  predicate EntryThrows(entry: (string, Json)) {
    var payload := entry.1;
    var noAverage := IsNullish(Get(payload, "average_accuracy"));
    && IsObjectType(payload)
    && match ResultsOf(payload)
       case Uniterable => true
       case Chars(_) => noAverage
       case Items(xs) => (exists k :: 0 <= k < |xs| && BadFile(xs[k])) || (noAverage && JNull in xs)
  }

  /** One turn of the dataset loop throws exactly on an entry that throws. */
  lemma EntryStepFails(acc: Extraction, entry: (string, Json), srcLabel: string, numOf: Json -> real)
    ensures EntryStep(acc, entry, srcLabel, numOf).Err? <==> EntryThrows(entry)
  {
    var (path, payload) := entry;
    if IsObjectType(payload) && ResultsOf(payload).Items? {
      ItemsFromFails(acc.data, ResultsOf(payload).items, DatasetName(path), srcLabel, numOf);
    }
  }

  lemma ThrowsShift(entries: seq<(string, Json)>)
    requires |entries| > 0
    ensures (exists i :: 0 <= i < |entries| && EntryThrows(entries[i])) <==>
              EntryThrows(entries[0]) || exists i :: 0 <= i < |entries[1..]| && EntryThrows(entries[1..][i])
  {
    if exists i :: 0 <= i < |entries[1..]| && EntryThrows(entries[1..][i]) {
      var i :| 0 <= i < |entries[1..]| && EntryThrows(entries[1..][i]);
      assert entries[i + 1] == entries[1..][i];
    }
    if exists i :: 0 <= i < |entries| && EntryThrows(entries[i]) {
      var i :| 0 <= i < |entries| && EntryThrows(entries[i]);
      if i != 0 {
        assert entries[1..][i - 1] == entries[i];
      }
    }
  }

  /** The dataset loop throws exactly when one of its entries throws. */
  lemma {:induction false} ExtractFromFails(acc: Extraction, entries: seq<(string, Json)>, srcLabel: string,
                                            numOf: Json -> real)
    ensures ExtractFrom(acc, entries, srcLabel, numOf).Err? <==>
              exists i :: 0 <= i < |entries| && EntryThrows(entries[i])
    decreases |entries|
  {
    if |entries| > 0 {
      ThrowsShift(entries);
      EntryStepFails(acc, entries[0], srcLabel, numOf);
      var step := EntryStep(acc, entries[0], srcLabel, numOf);
      if step.Ok? {
        ExtractFromUnfold(acc, entries, srcLabel, numOf);
        ExtractFromFails(step.value, entries[1..], srcLabel, numOf);
      }
    }
  }

  /** `extractRecords(doc)` throws exactly when some `dataset_results` entry throws. */
  lemma ExtractedFails(doc: Json, numStr: real -> string, numOf: Json -> real)
    ensures var entries := DatasetEntries(doc);
            Extracted(doc, numStr, numOf).Err? <==> exists i :: 0 <= i < |entries| && EntryThrows(entries[i])
  {
    ExtractFromFails(Extraction([], map[]), DatasetEntries(doc), SourceLabel(numStr, doc), numOf);
  }

  /** A result entry with an `accuracy_mean` and no `file`. */
  function AccuracyOnly(v: real): Json {
    JObj([("accuracy_mean", JNum(v))])
  }

  lemma FallbackValuesExample(numOf: Json -> real)
    ensures FallbackValues([AccuracyOnly(0.8), AccuracyOnly(0.6)], numOf) == Ok([0.8, 0.6])
  {
    var a, b := AccuracyOnly(0.8), AccuracyOnly(0.6);
    assert [a, b][1..] == [b];
    assert FallbackValues([b], numOf) == Ok([0.6]) by {
      assert Get(b, "accuracy_mean") == Some(JNum(0.6));
      assert HasAccuracy(b);
      assert [b][1..] == [];
      assert FallbackValues([b][1..], numOf) == Ok([]);
      assert ParseFloat(numOf, JNum(0.6)) == 0.6;
      assert FallbackValues([b], numOf) == Ok([0.6] + []);
      assert [0.6] + [] == [0.6];
    }
    assert Get(a, "accuracy_mean") == Some(JNum(0.8));
    assert HasAccuracy(a);
    assert ParseFloat(numOf, JNum(0.8)) == 0.8;
    assert FallbackValues([a, b], numOf) == Ok([0.8] + [0.6]);
    assert [0.8] + [0.6] == [0.8, 0.6];
  }

  lemma MeanExample()
    ensures Seqs.Mean([0.8, 0.6]) == 0.7
  {
    assert Seqs.Sum([0.8, 0.6]) == 1.4 by {
      assert [0.8, 0.6][..1] == [0.8];
      assert [0.8][..0] == [];
    }
  }

  /** Without `average_accuracy`, results `[{accuracy_mean: 0.8}, {accuracy_mean: 0.6}]`
      average to 0.7. */
  lemma FallbackAverageExample(numOf: Json -> real)
    ensures FallbackAverage([AccuracyOnly(0.8), AccuracyOnly(0.6)], numOf) == Ok(Some(0.7))
  {
    FallbackValuesExample(numOf);
    MeanExample();
  }

  /** The same results under `datasets/mmlu/`: neither entry has a `file`,
      so no record comes out, but both count towards the average. */
  lemma EntriesWithoutFileCountTowardsAverage(numOf: Json -> real)
    ensures var payload := JObj([("results", JArr([AccuracyOnly(0.8), AccuracyOnly(0.6)]))]);
            EntryStep(Extraction([], map[]), ("datasets/mmlu/", payload), "m @ t", numOf)
              == Ok(Extraction([], map["mmlu" := 0.7]))
  {
    var a, b := AccuracyOnly(0.8), AccuracyOnly(0.6);
    var payload := JObj([("results", JArr([a, b]))]);
    DatasetNameExamples();
    FallbackAverageExample(numOf);
    NoFileNoRecords(numOf);
    assert IsObjectType(payload);
    assert Get(payload, "average_accuracy") == None;
    assert Get(payload, "results") == Some(JArr([a, b]));
    ResultsOfArray(payload, [a, b]);
  }

  /** An array under `results` is iterated over its elements. */
  lemma ResultsOfArray(payload: Json, xs: seq<Json>)
    requires Get(payload, "results") == Some(JArr(xs))
    ensures ResultsOf(payload) == Items(xs)
  {
  }

  lemma NoFileNoRecords(numOf: Json -> real)
    ensures ItemsFrom([], [AccuracyOnly(0.8), AccuracyOnly(0.6)], "mmlu", "m @ t", numOf) == Ok([])
  {
    var a, b := AccuracyOnly(0.8), AccuracyOnly(0.6);
    assert Get(a, "file") == None && Get(b, "file") == None;
    assert ItemRecord(a, "mmlu", "m @ t", numOf) == Ok(None);
    assert ItemRecord(b, "mmlu", "m @ t", numOf) == Ok(None);
    assert [a, b][1..] == [b];
    assert [b][1..] == [];
    assert ItemsFrom([], [b], "mmlu", "m @ t", numOf) == ItemsFrom([], [], "mmlu", "m @ t", numOf);
  }

  /** A `null` element of `results` makes the file unusable when there is no
      explicit average, and is harmless when there is one. */
  lemma NullEntryExample(numOf: Json -> real)
    ensures EntryStep(Extraction([], map[]), ("x", JObj([("results", JArr([JNull]))])), "m @ t", numOf)
              == Err(NullResultEntry)
    ensures EntryStep(Extraction([], map[]),
                      ("x", JObj([("average_accuracy", JNum(0.5)), ("results", JArr([JNull]))])), "m @ t", numOf)
              == Ok(Extraction([], map["x" := 0.5]))
  {
    assert [JNull][1..] == [];
    assert !StartsWith("x", DatasetsPrefix);
  }

  /** `extractRecords`: the two nested loops, pushing into `data` and filling `meta`. */
  method ExtractRecords(doc: Json, numStr: real -> string, numOf: Json -> real)
    returns (r: Result<Extraction, ExtractError>)
    ensures r == Extracted(doc, numStr, numOf)
  {
    var srcLabel := SourceLabel(numStr, doc);
    var entries := DatasetEntries(doc);
    var data: seq<Record> := [];
    var meta: map<string, real> := map[];
    var i := 0;
    while i < |entries|
      invariant 0 <= i <= |entries|
      invariant ExtractFrom(Extraction(data, meta), entries[i..], srcLabel, numOf) == Extracted(doc, numStr, numOf)
    {
      var (path, payload) := entries[i];
      assert entries[i..][1..] == entries[i + 1..];
      if IsObjectType(payload) {
        var ds := DatasetName(path);
        var avg := Get(payload, "average_accuracy");
        match ResultsOf(payload) {
          case Uniterable =>
            return Err(ResultsNotIterable);
          case Chars(_) =>
            if IsNullish(avg) {
              return Err(ResultsNotArray);
            }
            meta := meta[ds := ParseFloat(numOf, avg.value)];
          case Items(xs) =>
            var start := data;
            var j := 0;
            while j < |xs|
              invariant 0 <= j <= |xs|
              invariant ItemsFrom(data, xs[j..], ds, srcLabel, numOf) == ItemsFrom(start, xs, ds, srcLabel, numOf)
            {
              assert xs[j..][1..] == xs[j + 1..];
              match ItemRecord(xs[j], ds, srcLabel, numOf) {
                case Err(e) =>
                  return Err(e);
                case Ok(None) =>
                case Ok(Some(rec)) =>
                  data := data + [rec];
              }
              j := j + 1;
            }
            if !IsNullish(avg) {
              meta := meta[ds := ParseFloat(numOf, avg.value)];
            } else if |xs| > 0 {
              var values := FallbackValues(xs, numOf);
              if values.Err? {
                return Err(values.error);
              }
              if |values.value| > 0 {
                meta := meta[ds := Seqs.Mean(values.value)];
              }
            }
        }
      }
      i := i + 1;
    }
    return Ok(Extraction(data, meta));
  }
}
