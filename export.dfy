/** The page table (`createDataTable`) and the page CSV (`downloadPageCSV`):
    a header of `category` and the page's source labels, then one row per
    category whose cells hold the first matching record's value. */
module Export {
  import opened Wrappers
  import opened Seqs
  import opened Text
  import opened Aggregation

  /** Digits after the point: one for percentages, four for raw accuracies.
      `fixed(v, d)` stands for `v.toFixed(d)`. */
  function Digits(normalize: bool): nat {
    if normalize then 1 else 4
  }

  /** The cell for a category and a source; `missing` is `'-'` in the table
      and `''` in the CSV. */
  function Cell(data: seq<Shown>, category: string, source: string, normalize: bool,
                fixed: (real, nat) -> string, missing: string): string
  {
    match FindRecord(data, category, source)
    case None => missing
    case Some(k) => fixed(data[k].displayValue, Digits(normalize))
  }

  /** A cell shows the first matching record's value, or `missing` exactly
      when the page has no record for the pair. */
  lemma CellMeaning(data: seq<Shown>, category: string, source: string, normalize: bool,
                    fixed: (real, nat) -> string, missing: string)
    ensures (forall k :: 0 <= k < |data| ==> !Matches(data[k], category, source)) ==>
              Cell(data, category, source, normalize, fixed, missing) == missing
    ensures forall k :: 0 <= k < |data| && Matches(data[k], category, source)
                        && (forall j :: 0 <= j < k ==> !Matches(data[j], category, source)) ==>
              Cell(data, category, source, normalize, fixed, missing) == fixed(data[k].displayValue, Digits(normalize))
  {
    var r := FindRecord(data, category, source);
    if r.Some? {
      var k0 := r.value;
      assert Matches(data[k0], category, source);
      forall k | 0 <= k < |data| && Matches(data[k], category, source)
                 && (forall j :: 0 <= j < k ==> !Matches(data[j], category, source))
        ensures k == k0
      {
        assert !(k < k0);
        assert !(k0 < k);
      }
    }
  }

  function Header(data: seq<Shown>): (h: seq<string>)
    ensures |h| == |SourceLabels(data)| + 1
  {
    ["category"] + SourceLabels(data)
  }

  function Row(data: seq<Shown>, category: string, normalize: bool, fixed: (real, nat) -> string, missing: string): (row: seq<string>)
    ensures |row| == |SourceLabels(data)| + 1
  {
    var sources := SourceLabels(data);
    [category] + seq(|sources|, j requires 0 <= j < |sources| => Cell(data, category, sources[j], normalize, fixed, missing))
  }

  /** The table's text (`createDataTable`). */
  function Table(data: seq<Shown>, cats: seq<string>, normalize: bool, fixed: (real, nat) -> string): (rows: seq<seq<string>>)
    ensures |rows| == |cats| + 1
  {
    [Header(data)] + seq(|cats|, i requires 0 <= i < |cats| => Row(data, cats[i], normalize, fixed, "-"))
  }

  /** The table has a header row, then one row per page category, each as
      wide as the header, starting with the category and holding its cells. */
  lemma TableShape(data: seq<Shown>, cats: seq<string>, normalize: bool, fixed: (real, nat) -> string)
    ensures var rows := Table(data, cats, normalize, fixed);
            && rows[0] == ["category"] + SourceLabels(data)
            && forall i :: 0 <= i < |cats| ==>
                 && |rows[i + 1]| == |rows[0]|
                 && rows[i + 1][0] == cats[i]
                 && forall j :: 0 <= j < |SourceLabels(data)| ==>
                      rows[i + 1][j + 1] == Cell(data, cats[i], SourceLabels(data)[j], normalize, fixed, "-")
  {
    var rows := Table(data, cats, normalize, fixed);
    var sources := SourceLabels(data);
    forall i | 0 <= i < |cats|
      ensures |rows[i + 1]| == |rows[0]| && rows[i + 1][0] == cats[i]
      ensures forall j :: 0 <= j < |sources| ==> rows[i + 1][j + 1] == Cell(data, cats[i], sources[j], normalize, fixed, "-")
    {
      assert rows[i + 1] == Row(data, cats[i], normalize, fixed, "-");
    }
  }

  /** The CSV lines: the joined header, then each joined row. */
  function CsvLines(data: seq<Shown>, cats: seq<string>, normalize: bool, fixed: (real, nat) -> string): (lines: seq<string>)
    ensures |lines| == |cats| + 1
  {
    [Join(Header(data), ',')] + seq(|cats|, i requires 0 <= i < |cats| => Join(Row(data, cats[i], normalize, fixed, ""), ','))
  }

  /** One CSV row: the category, then one field per source label. */
  method CsvRow(data: seq<Shown>, category: string, sourceLabels: seq<string>, normalize: bool,
                fixed: (real, nat) -> string) returns (row: seq<string>)
    requires sourceLabels == SourceLabels(data)
    ensures row == Row(data, category, normalize, fixed, "")
  {
    ghost var full := Row(data, category, normalize, fixed, "");
    row := [category];
    for j := 0 to |sourceLabels|
      invariant row == full[..j + 1]
    {
      var item := FindRecord(data, category, sourceLabels[j]);
      var text := if item.Some? then fixed(data[item.value].displayValue, Digits(normalize)) else "";
      assert text == Cell(data, category, sourceLabels[j], normalize, fixed, "");
      RowCell(data, category, normalize, fixed, "", j);
      PrefixStep(full, j + 1);
      row := row + [text];
    }
    assert full[..|sourceLabels| + 1] == full;
  }

  lemma RowCell(data: seq<Shown>, category: string, normalize: bool, fixed: (real, nat) -> string,
                missing: string, j: nat)
    requires j < |SourceLabels(data)|
    ensures Row(data, category, normalize, fixed, missing)[j + 1]
            == Cell(data, category, SourceLabels(data)[j], normalize, fixed, missing)
  {
  }

  /** `downloadPageCSV`'s text, built line by line as the source pushes into `rows`. */
  method PageCsv(data: seq<Shown>, cats: seq<string>, normalize: bool, fixed: (real, nat) -> string) returns (csv: string)
    ensures csv == Join(CsvLines(data, cats, normalize, fixed), '\n')
  {
    var sourceLabels := SourceLabels(data);
    var headers := ["category"] + sourceLabels;
    var rows := [Join(headers, ',')];
    for i := 0 to |cats|
      invariant rows == CsvLines(data, cats, normalize, fixed)[..i + 1]
    {
      var row := CsvRow(data, cats[i], sourceLabels, normalize, fixed);
      rows := rows + [Join(row, ',')];
    }
    assert rows == CsvLines(data, cats, normalize, fixed);
    csv := Join(rows, '\n');
  }

  /** No text the CSV is made of holds a comma or a line break. */
  predicate PlainFields(data: seq<Shown>, cats: seq<string>, normalize: bool, fixed: (real, nat) -> string) {
    && (forall i :: 0 <= i < |cats| ==> ',' !in cats[i] && '\n' !in cats[i])
    && (forall i :: 0 <= i < |data| ==> ',' !in data[i].rec.sourceLabel && '\n' !in data[i].rec.sourceLabel)
    && (forall i :: 0 <= i < |data| ==>
          ',' !in fixed(data[i].displayValue, Digits(normalize)) && '\n' !in fixed(data[i].displayValue, Digits(normalize)))
  }

  lemma RowPlain(data: seq<Shown>, cats: seq<string>, normalize: bool, fixed: (real, nat) -> string, i: nat)
    requires PlainFields(data, cats, normalize, fixed) && i < |cats|
    ensures var row := Row(data, cats[i], normalize, fixed, "");
            forall f :: 0 <= f < |row| ==> ',' !in row[f] && '\n' !in row[f]
  {
    var sources := SourceLabels(data);
    var row := Row(data, cats[i], normalize, fixed, "");
    forall f | 1 <= f < |row| ensures ',' !in row[f] && '\n' !in row[f] {
      match FindRecord(data, cats[i], sources[f - 1])
      case None =>
      case Some(k) =>
    }
  }

  lemma HeaderPlain(data: seq<Shown>, cats: seq<string>, normalize: bool, fixed: (real, nat) -> string)
    requires PlainFields(data, cats, normalize, fixed)
    ensures forall f :: 0 <= f < |Header(data)| ==> ',' !in Header(data)[f] && '\n' !in Header(data)[f]
  {
    var sources := SourceLabels(data);
    forall f | 1 <= f < |Header(data)| ensures ',' !in Header(data)[f] && '\n' !in Header(data)[f] {
      var k :| 0 <= k < |data| && data[k].rec.sourceLabel == sources[f - 1];
    }
  }

  /** No CSV line holds a line break, and each splits into its fields. */
  lemma LinesSplit(data: seq<Shown>, cats: seq<string>, normalize: bool, fixed: (real, nat) -> string)
    requires PlainFields(data, cats, normalize, fixed)
    ensures var lines := CsvLines(data, cats, normalize, fixed);
            && (forall l :: 0 <= l < |lines| ==> '\n' !in lines[l])
            && Split(lines[0], ',') == Header(data)
            && forall i :: 0 <= i < |cats| ==> Split(lines[i + 1], ',') == Row(data, cats[i], normalize, fixed, "")
  {
    var lines := CsvLines(data, cats, normalize, fixed);
    HeaderLineSplits(data, cats, normalize, fixed);
    forall i | 0 <= i < |cats|
      ensures Split(lines[i + 1], ',') == Row(data, cats[i], normalize, fixed, "")
    {
      RowLineSplits(data, cats, normalize, fixed, i);
    }
    forall l | 0 <= l < |lines| ensures '\n' !in lines[l] {
      if l > 0 {
        RowLineSplits(data, cats, normalize, fixed, l - 1);
      }
    }
  }

  lemma HeaderLineSplits(data: seq<Shown>, cats: seq<string>, normalize: bool, fixed: (real, nat) -> string)
    requires PlainFields(data, cats, normalize, fixed)
    ensures var line := CsvLines(data, cats, normalize, fixed)[0];
            '\n' !in line && Split(line, ',') == Header(data)
  {
    assert CsvLines(data, cats, normalize, fixed)[0] == Join(Header(data), ',');
    HeaderPlain(data, cats, normalize, fixed);
    SplitJoin(Header(data), ',');
    JoinAvoids(Header(data), ',', '\n');
  }

  lemma RowLineSplits(data: seq<Shown>, cats: seq<string>, normalize: bool, fixed: (real, nat) -> string, i: nat)
    requires PlainFields(data, cats, normalize, fixed) && i < |cats|
    ensures var line := CsvLines(data, cats, normalize, fixed)[i + 1];
            '\n' !in line && Split(line, ',') == Row(data, cats[i], normalize, fixed, "")
  {
    var row := Row(data, cats[i], normalize, fixed, "");
    assert CsvLines(data, cats, normalize, fixed)[i + 1] == Join(row, ',');
    RowPlain(data, cats, normalize, fixed, i);
    SplitJoin(row, ',');
    JoinAvoids(row, ',', '\n');
  }

  /** When no field holds a comma or a line break, reading the CSV back gives
      one line per row, header first, and each line splits into its fields:
      `category` and the source labels, then for each category its name and
      one cell per source. */
  lemma CsvReadsBack(data: seq<Shown>, cats: seq<string>, normalize: bool, fixed: (real, nat) -> string)
    requires PlainFields(data, cats, normalize, fixed)
    ensures var lines := Split(Join(CsvLines(data, cats, normalize, fixed), '\n'), '\n');
            && lines == CsvLines(data, cats, normalize, fixed)
            && Split(lines[0], ',') == Header(data)
            && forall i :: 0 <= i < |cats| ==> Split(lines[i + 1], ',') == Row(data, cats[i], normalize, fixed, "")
  {
    LinesSplit(data, cats, normalize, fixed);
    SplitJoin(CsvLines(data, cats, normalize, fixed), '\n');
  }

  /** The download is named `twinkle_<dataset>_<start>_<end>.csv`. */
  function CsvFileName(dataset: string, start: nat, end: nat): (name: string)
    ensures StartsWith(name, "twinkle_") && EndsWith(name, ".csv")
  {
    "twinkle_" + dataset + "_" + NatToString(start) + "_" + NatToString(end) + ".csv"
  }

  lemma JoinFour(p: string, q: string, u: string, v: string)
    ensures Join([p, q, u, v], '_') == p + "_" + q + "_" + u + "_" + v
  {
    assert [p, q, u, v][1..] == [q, u, v] && [q, u, v][1..] == [u, v] && [u, v][1..] == [v];
    assert Join([v], '_') == v;
    assert Join([u, v], '_') == u + "_" + v;
    assert Join([q, u, v], '_') == q + "_" + (u + "_" + v);
  }

  /** The name reads back: without `.csv` and split at `_`, it gives the
      prefix, the dataset and the two page bounds, whenever the dataset name
      has no `_` of its own. */
  lemma CsvFileNameParts(dataset: string, start: nat, end: nat)
    requires '_' !in dataset
    ensures var name := CsvFileName(dataset, start, end);
            var parts := Split(name[..|name| - 4], '_');
            && |parts| == 4 && parts[0] == "twinkle" && parts[1] == dataset
            && parts[2] == NatToString(start) && parts[3] == NatToString(end)
            && DigitsValue(parts[2]) == start && DigitsValue(parts[3]) == end
  {
    var a, b := NatToString(start), NatToString(end);
    var name := CsvFileName(dataset, start, end);
    var pieces := ["twinkle", dataset, a, b];
    var stem := "twinkle_" + dataset + "_" + a + "_" + b;
    assert name == stem + ".csv";
    assert name[..|name| - 4] == stem;
    JoinFour("twinkle", dataset, a, b);
    assert "twinkle_" == "twinkle" + "_";
    assert stem == Join(pieces, '_');
    assert '_' !in "twinkle";
    assert '_' !in a && '_' !in b;
    assert forall i :: 0 <= i < |pieces| ==> '_' !in pieces[i];
    SplitJoin(pieces, '_');
    assert Split(name[..|name| - 4], '_') == pieces;
  }
}
