/** The numbers behind one page's bar chart (`createChart`): the SVG nodes,
    colours and tooltips are not modelled. */
module Layout {
  import opened Wrappers
  import opened Seqs
  import opened Extractor
  import opened Aggregation

  /** The SVG `viewBox` is 900 by 560; margins are fixed except at the bottom. */
  const ViewWidth: int := 900
  const ViewHeight: int := 560
  const MarginTop: int := 20
  const MarginRight: int := 260
  const MarginLeft: int := 60
  const BottomBase: int := 80
  /** Estimated width of one character of a category name at font size 11. */
  const CharWidth: real := 6.5

  function IntMin(a: int, b: int): int { if a <= b then a else b }
  function IntMax(a: int, b: int): int { if a >= b then a else b }

  /** `Math.round`: the nearest integer, halves rounded up. */
  function Round(x: real): (n: int)
    ensures x - 0.5 < n as real <= x + 0.5
  {
    (x + 0.5).Floor
  }

  lemma RoundWhole(k: int)
    ensures Round(k as real) == k
  {
  }

  /** `Math.ceil`. */
  function Ceil(x: real): (n: int)
    ensures x <= n as real < x + 1.0
  {
    -((-x).Floor)
  }

  /** `categories.reduce((m, c) => Math.max(m, (c || '').length), 0)`. */
  function MaxLength(cats: seq<string>): (m: nat)
    ensures forall i :: 0 <= i < |cats| ==> |cats[i]| <= m
    ensures |cats| == 0 ==> m == 0
    ensures |cats| > 0 ==> exists i :: 0 <= i < |cats| && |cats[i]| == m
  {
    if |cats| == 0 then 0
    else
      var m := MaxLength(cats[..|cats| - 1]);
      assert forall i :: 0 <= i < |cats| - 1 ==> cats[i] == cats[..|cats| - 1][i];
      if |cats[|cats| - 1]| > m then |cats[|cats| - 1]| else m
  }

  /** Room under the plot for the rotated category names, clamped to [40, 300]. */
  function LabelSpace(cats: seq<string>): (space: int)
    ensures 40 <= space <= 300
    ensures MaxLength(cats) <= 6 ==> space == 40
    ensures MaxLength(cats) >= 47 ==> space == 300
  {
    IntMin(300, IntMax(40, Round(MaxLength(cats) as real * CharWidth)))
  }

  /** A longer longest name never gets less room. */
  lemma LabelSpaceMonotone(a: seq<string>, b: seq<string>)
    requires MaxLength(a) <= MaxLength(b)
    ensures LabelSpace(a) <= LabelSpace(b)
  {
    assert MaxLength(a) as real * CharWidth <= MaxLength(b) as real * CharWidth;
  }

  function ChartWidth(): int {
    ViewWidth - MarginLeft - MarginRight
  }

  function ChartHeight(cats: seq<string>): int {
    ViewHeight - MarginTop - (BottomBase + LabelSpace(cats))
  }

  /** The plot is 580 wide and between 160 and 420 high. */
  lemma PlotSize(cats: seq<string>)
    ensures ChartWidth() == 580
    ensures ChartHeight(cats) == 460 - LabelSpace(cats)
    ensures 160 <= ChartHeight(cats) <= 420
  {
  }

  /** The baseline of the x-axis title, under the category names. */
  function XTitleY(cats: seq<string>): int {
    ChartHeight(cats) + 40 + LabelSpace(cats)
  }

  /** Where the names are not clamped, the estimated extent of the longest
      rotated name (it starts 18 below the axis) ends above the x-axis title,
      and the title stays inside the view. */
  lemma XTitleClearsNames(cats: seq<string>)
    ensures MarginTop + XTitleY(cats) < ViewHeight
    ensures MaxLength(cats) <= 46 ==>
              (ChartHeight(cats) + 18) as real + MaxLength(cats) as real * CharWidth < XTitleY(cats) as real
  {
  }

  /** `Math.max(...data.map(item => item.displayValue))`. */
  function MaxValue(data: seq<Shown>): (m: real)
    requires |data| > 0
    ensures forall i :: 0 <= i < |data| ==> data[i].displayValue <= m
    ensures exists i :: 0 <= i < |data| && data[i].displayValue == m
  {
    if |data| == 1 then data[0].displayValue
    else
      var m := MaxValue(data[1..]);
      assert forall i :: 1 <= i < |data| ==> data[i] == data[1..][i - 1];
      if data[0].displayValue > m then data[0].displayValue else m
  }

  /** The top of the y axis: 100 when normalised, otherwise the largest value
      rounded up to a multiple of 0.05 (`maxValue || 1` turns 0 into 1),
      capped at 1. */
  function YMax(normalize: bool, maxValue: real): (y: real)
    ensures normalize ==> y == 100.0
    ensures !normalize ==> y <= 1.0
    ensures !normalize && maxValue <= 1.0 ==> maxValue <= y
    ensures !normalize && maxValue != 0.0 ==> y < maxValue + 0.05
    ensures !normalize ==> (20.0 * y).Floor as real == 20.0 * y
    ensures !normalize && (maxValue == 0.0 || 1.0 <= maxValue) ==> y == 1.0
  {
    if normalize then 100.0
    else
      var m := if maxValue == 0.0 then 1.0 else maxValue;
      var up := Ceil(m / 0.05) as real * 0.05;
      if 1.0 <= up then 1.0 else up
  }

  /** The number of y-axis intervals: 10 when normalised, one per 0.05 otherwise. */
  function YSteps(normalize: bool, yMax: real): (n: int)
    ensures n >= 1
  {
    if normalize then 10 else IntMax(1, Round(yMax / 0.05))
  }

  /** Raw values get one grid line every 0.05, normalised ones every 10. */
  lemma StepSize(normalize: bool, maxValue: real)
    requires normalize || 0.0 <= maxValue
    ensures var yMax := YMax(normalize, maxValue);
            yMax / YSteps(normalize, yMax) as real == if normalize then 10.0 else 0.05
  {
    if !normalize && maxValue == 0.0 {
      assert YMax(normalize, maxValue) / 0.05 == 20.0;
      RoundWhole(20);
    } else if !normalize {
      var yMax := YMax(normalize, maxValue);
      var c := Ceil(maxValue / 0.05);
      var up := c as real * 0.05;
      if 1.0 <= up {
        assert yMax == 1.0;
        assert yMax / 0.05 == 20.0;
        RoundWhole(20);
      } else {
        assert yMax == up;
        assert 0.0 < maxValue / 0.05 <= c as real;
        assert yMax / 0.05 == c as real;
        RoundWhole(c);
        assert YSteps(normalize, yMax) == c;
      }
    }
  }

  /** A page whose best value is 0.37 gets an axis up to 0.40 in 8 steps. */
  lemma YAxisExample()
    ensures YMax(false, 0.37) == 0.4
    ensures YSteps(false, 0.4) == 8
  {
    assert 0.37 / 0.05 == 7.4;
    assert Ceil(7.4) == 8;
    assert Round(0.4 / 0.05) == 8;
  }

  /** The y-axis tick `i`: its value and its height in the plot. */
  function TickValue(yMax: real, steps: int, i: int): real
    requires steps >= 1
  {
    (yMax / steps as real) * i as real
  }

  function TickY(height: int, steps: int, i: int): real
    requires steps >= 1
  {
    height as real - (i as real / steps as real) * height as real
  }

  /** The ticks run evenly from 0 at the axis to `yMax` at the top of the plot. */
  lemma TicksSpanAxis(yMax: real, steps: int, height: int, i: int)
    requires steps >= 1 && 0 <= i < steps
    ensures TickValue(yMax, steps, 0) == 0.0 && TickY(height, steps, 0) == height as real
    ensures TickValue(yMax, steps, steps) == yMax && TickY(height, steps, steps) == 0.0
    ensures TickValue(yMax, steps, i + 1) - TickValue(yMax, steps, i) == yMax / steps as real
  {
  }

  datatype Bar = Bar(x: real, y: real, width: real, height: real)

  /** The geometry of the bar of source `li` (of `nLabels`) in category slot
      `ci` (of `nCats`): bars are 80% of an equal share of the slot, spaced by
      a tenth of their width, after a tenth of the slot. */
  function BarGeometry(ci: nat, li: nat, nCats: nat, nLabels: nat, value: real, yMax: real, height: int): Bar
    requires nCats > 0 && nLabels > 0
  {
    var categoryWidth := ChartWidth() as real / nCats as real;
    var barWidth := categoryWidth / nLabels as real * 0.8;
    var barSpacing := barWidth * 0.1;
    var barHeight := (value / (if yMax == 0.0 then 1.0 else yMax)) * height as real;
    Bar(ci as real * categoryWidth + li as real * (barWidth + barSpacing) + categoryWidth * 0.1,
        height as real - barHeight, barWidth, barHeight)
  }

  /** Every bar lies inside its category's slot, and the bars of one slot do
      not overlap. */
  lemma BarInSlot(ci: nat, li: nat, nCats: nat, nLabels: nat, value: real, yMax: real, height: int)
    requires ci < nCats && li < nLabels
    ensures var b := BarGeometry(ci, li, nCats, nLabels, value, yMax, height);
            var slot := ChartWidth() as real / nCats as real;
            ci as real * slot < b.x && b.x + b.width < (ci + 1) as real * slot
    ensures li + 1 < nLabels ==>
              var b := BarGeometry(ci, li, nCats, nLabels, value, yMax, height);
              b.x + b.width < BarGeometry(ci, li + 1, nCats, nLabels, value, yMax, height).x
  {
    var cw := ChartWidth() as real / nCats as real;
    var n := nLabels as real;
    var bw := cw / n * 0.8;
    assert cw > 0.0;
    assert bw * n == 0.8 * cw;
    assert li as real <= n - 1.0;
    var off := li as real * (bw + bw * 0.1) + cw * 0.1;
    assert off + bw <= (n - 1.0) * (bw * 1.1) + cw * 0.1 + bw by {
      assert li as real * (bw * 1.1) <= (n - 1.0) * (bw * 1.1);
    }
    assert (n - 1.0) * (bw * 1.1) + bw == 1.1 * (bw * n) - 0.1 * bw;
  }

  /** Bars stand on the x axis, and a value between 0 and `yMax` gives a bar
      inside the plot. */
  lemma BarOnAxis(ci: nat, li: nat, nCats: nat, nLabels: nat, value: real, yMax: real, height: int)
    requires nCats > 0 && nLabels > 0 && height >= 0
    ensures var b := BarGeometry(ci, li, nCats, nLabels, value, yMax, height);
            b.y + b.height == height as real
    ensures 0.0 <= value <= yMax && yMax != 0.0 ==>
              var b := BarGeometry(ci, li, nCats, nLabels, value, yMax, height);
              0.0 <= b.y <= height as real && 0.0 <= b.height
  {
    if 0.0 <= value <= yMax && yMax != 0.0 {
      assert 0.0 <= value / yMax <= 1.0;
      assert (value / yMax) * height as real <= height as real;
    }
  }

  /** The bar drawn for category `ci` and source `li` of a page, if any. */
  function BarAt(data: seq<Shown>, cats: seq<string>, normalize: bool, ci: nat, li: nat): Option<Bar>
    requires |data| > 0 && ci < |cats| && li < |SourceLabels(data)|
  {
    var labels := SourceLabels(data);
    var yMax := YMax(normalize, MaxValue(data));
    match FindRecord(data, cats[ci], labels[li])
    case None => None
    case Some(k) => Some(BarGeometry(ci, li, |cats|, |labels|, data[k].displayValue, yMax, ChartHeight(cats)))
  }

  /** A bar is drawn exactly when the page has a record for the pair, and its
      height is the first such record's value scaled to the plot. */
  lemma BarAtRecord(data: seq<Shown>, cats: seq<string>, normalize: bool, ci: nat, li: nat)
    requires |data| > 0 && ci < |cats| && li < |SourceLabels(data)|
    ensures BarAt(data, cats, normalize, ci, li).None? <==>
              forall k :: 0 <= k < |data| ==> !Matches(data[k], cats[ci], SourceLabels(data)[li])
    ensures BarAt(data, cats, normalize, ci, li).Some? ==>
              exists k :: 0 <= k < |data| && Matches(data[k], cats[ci], SourceLabels(data)[li])
                && (forall j :: 0 <= j < k ==> !Matches(data[j], cats[ci], SourceLabels(data)[li]))
                && BarAt(data, cats, normalize, ci, li).value.height
                   == BarGeometry(ci, li, |cats|, |SourceLabels(data)|, data[k].displayValue,
                                  YMax(normalize, MaxValue(data)), ChartHeight(cats)).height
  {
    var labels := SourceLabels(data);
    match FindRecord(data, cats[ci], labels[li])
    case None =>
    case Some(k) =>
      assert Matches(data[k], cats[ci], labels[li]);
  }

  /** With accuracies in [0, 1], every bar of a page lies inside the plot. */
  lemma BarsInsidePlot(data: seq<Shown>, cats: seq<string>, normalize: bool, ci: nat, li: nat)
    requires |data| > 0 && ci < |cats| && li < |SourceLabels(data)|
    requires forall i :: 0 <= i < |data| ==>
               0.0 <= data[i].rec.accuracyMean <= 1.0 && data[i].displayValue == Scaled(data[i].rec.accuracyMean, normalize)
    ensures BarAt(data, cats, normalize, ci, li).Some? ==>
              var b := BarAt(data, cats, normalize, ci, li).value;
              0.0 <= b.y <= ChartHeight(cats) as real && b.y + b.height == ChartHeight(cats) as real
  {
    var labels := SourceLabels(data);
    var m := MaxValue(data);
    var yMax := YMax(normalize, m);
    match FindRecord(data, cats[ci], labels[li])
    case None =>
    case Some(k) =>
      var v := data[k].displayValue;
      assert 0.0 <= v <= m;
      if normalize {
        assert v <= 100.0;
      } else {
        assert m <= 1.0;
      }
      assert 0.0 < yMax;
      BarOnAxis(ci, li, |cats|, |labels|, v, yMax, ChartHeight(cats));
  }

  /** Legend rows are 20 apart below a 28-unit title; the card is as high as
      its rows plus that title. */
  function LegendRowY(index: nat): int {
    28 + index * 20
  }

  function LegendHeight(count: nat): int {
    count * 20 + 28
  }

  /** Each row's 12-unit swatch (drawn from 10 above the row to 2 below it)
      lies inside the legend card, below the title, without touching the next. */
  lemma LegendRowsInsideCard(count: nat, index: nat)
    requires index < count
    ensures 16 < LegendRowY(index) - 10
    ensures LegendRowY(index) + 2 <= LegendHeight(count)
    ensures LegendRowY(index) + 2 < LegendRowY(index + 1) - 10
  {
  }

  /** A legend source over 28 characters is cut to 28 and given an ellipsis. */
  function Shorten(source: string): (s: string)
    ensures |source| <= 28 ==> s == source
    ensures |source| > 28 ==> |s| == 29 && s[..28] == source[..28] && s[28] == '…'
  {
    if |source| > 28 then source[..28] + "…" else source
  }
}
