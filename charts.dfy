/**
 * The analysis behind `generate_stock_images`: the daily view with its
 * 20/50/200-bar moving averages, the one-minute volume-spike detector and
 * its BUY/SELL annotations, and the pair of images the step returns.
 *
 * Downloads are inputs (`None` when the download raised); drawing a figure
 * and encoding it as base64 PNG text are the parameters `drawDaily` and
 * `drawIntraday` (`None` when the export raised). What is drawn is given
 * as the data each figure is built from.
 */
module Charts {
  import opened Wrappers
  import opened Rolling

  /** One OHLCV bar, daily or one-minute. */
  datatype Bar = Bar(open: real, high: real, low: real, close: real, volume: nat)

  /** Rows of the daily view kept for the one-year chart. */
  const ONE_YEAR: nat := 252
  /** The window of the one-minute volume average. */
  const VOLUME_WINDOW: nat := 5

  // ---------------------------------------------------------------------
  // Daily view
  // ---------------------------------------------------------------------

  /** A row of the daily frame after the three SMA columns are added. */
  datatype DailyRow = DailyRow(bar: Bar, sma20: Option<real>, sma50: Option<real>, sma200: Option<real>)

  function Closes(bars: seq<Bar>): (r: seq<real>)
    ensures |r| == |bars|
    ensures forall i :: 0 <= i < |bars| ==> r[i] == bars[i].close
  {
    seq(|bars|, i requires 0 <= i < |bars| => bars[i].close)
  }

  /** The daily frame with its SMA20, SMA50 and SMA200 columns. */
  function WithSmas(bars: seq<Bar>): (r: seq<DailyRow>)
    ensures |r| == |bars|
  {
    var c := Closes(bars);
    var s20, s50, s200 := Sma(c, 20), Sma(c, 50), Sma(c, 200);
    seq(|bars|, i requires 0 <= i < |bars| => DailyRow(bars[i], s20[i], s50[i], s200[i]))
  }

  /** `df.tail(n)`. */
  function Tail<T>(s: seq<T>, n: nat): seq<T>
  {
    if |s| <= n then s else s[|s| - n..]
  }

  /** The rows drawn on the daily chart: the last year of the two-year frame. */
  function OneYearView(bars: seq<Bar>): seq<DailyRow>
  {
    Tail(WithSmas(bars), ONE_YEAR)
  }

  /**
   * The one-year view is the last min(n, 252) bars, in order, and each
   * carries the averages computed over the whole two-year history.
   */
  lemma OneYearViewSpec(bars: seq<Bar>)
    ensures |OneYearView(bars)| == (if |bars| < ONE_YEAR then |bars| else ONE_YEAR)
    ensures var view := OneYearView(bars); var off := |bars| - |view|;
      forall k :: 0 <= k < |view| ==>
        view[k].bar == bars[off + k] &&
        view[k].sma20 == Sma(Closes(bars), 20)[off + k] &&
        view[k].sma50 == Sma(Closes(bars), 50)[off + k] &&
        view[k].sma200 == Sma(Closes(bars), 200)[off + k]
  {
  }

  /**
   * With at least 252 + 199 bars of history every row of the one-year view
   * has all three averages, although they would be undefined at its first
   * rows had they been computed on the view alone.
   */
  lemma OneYearViewFullyDefined(bars: seq<Bar>)
    requires |bars| >= ONE_YEAR + 199
    ensures var view := OneYearView(bars);
      |view| == ONE_YEAR &&
      (forall k :: 0 <= k < |view| ==> view[k].sma20.Some? && view[k].sma50.Some? && view[k].sma200.Some?)
    ensures Sma(Closes(seq(ONE_YEAR, k requires 0 <= k < ONE_YEAR => OneYearView(bars)[k].bar)), 200)[0].None?
  {
  }

  // ---------------------------------------------------------------------
  // One-minute volume spikes
  // ---------------------------------------------------------------------

  function Volumes(bars: seq<Bar>): (r: seq<nat>)
    ensures |r| == |bars|
    ensures forall i :: 0 <= i < |bars| ==> r[i] == bars[i].volume
  {
    seq(|bars|, i requires 0 <= i < |bars| => bars[i].volume)
  }

  function AsReals(s: seq<nat>): (r: seq<real>)
    ensures |r| == |s|
    ensures forall i :: 0 <= i < |s| ==> r[i] == s[i] as real
  {
    seq(|s|, i requires 0 <= i < |s| => s[i] as real)
  }

  function NatSum(s: seq<nat>): nat
  {
    if |s| == 0 then 0 else NatSum(s[..|s| - 1]) + s[|s| - 1]
  }

  lemma {:induction false} SumAsReals(s: seq<nat>)
    ensures Sum(AsReals(s)) == NatSum(s) as real
  {
    if |s| > 0 {
      assert AsReals(s)[..|s| - 1] == AsReals(s[..|s| - 1]);
      SumAsReals(s[..|s| - 1]);
    }
  }

  lemma {:induction false} NatSumAtLeast(s: seq<nat>, j: nat)
    requires j < |s|
    ensures NatSum(s) >= s[j]
  {
    if j < |s| - 1 {
      NatSumAtLeast(s[..|s| - 1], j);
    }
  }

  /** The `Vol_Avg` column: the mean volume of the 5-bar window ending at each bar. */
  function VolumeAverage(bars: seq<Bar>): (r: seq<Option<real>>)
    ensures |r| == |bars|
  {
    Sma(AsReals(Volumes(bars)), VOLUME_WINDOW)
  }

  /** The `Spike` column at bar `i`: volume above three times the average; a NaN average never qualifies. */
  predicate IsSpike(bars: seq<Bar>, i: nat)
    requires i < |bars|
  {
    var avg := VolumeAverage(bars)[i];
    avg.Some? && bars[i].volume as real > avg.value * 3.0
  }

  function SpikeFlags(bars: seq<Bar>): (r: seq<bool>)
    ensures |r| == |bars|
  {
    seq(|bars|, i requires 0 <= i < |bars| => IsSpike(bars, i))
  }

  /**
   * In integers: bar `i` is a spike iff it is not among the first four and
   * five times its volume exceeds three times the volume of the 5-bar
   * window ending at it.
   */
  lemma SpikeExact(bars: seq<Bar>, i: nat)
    requires i < |bars|
    ensures IsSpike(bars, i) <==>
      i >= VOLUME_WINDOW - 1 && 5 * bars[i].volume > 3 * NatSum(Volumes(bars)[i - 4..i + 1])
  {
    var vs := AsReals(Volumes(bars));
    SmaAt(vs, VOLUME_WINDOW, i);
    if i >= 4 {
      assert vs[i - 4..i + 1] == AsReals(Volumes(bars)[i - 4..i + 1]);
      SumAsReals(Volumes(bars)[i - 4..i + 1]);
    }
  }

  /** Equivalently, twice the volume exceeds three times the volume of the four bars before it. */
  lemma SpikeAgainstPrior(bars: seq<Bar>, i: nat)
    requires i < |bars|
    ensures IsSpike(bars, i) <==>
      i >= VOLUME_WINDOW - 1 && 2 * bars[i].volume > 3 * NatSum(Volumes(bars)[i - 4..i])
  {
    SpikeExact(bars, i);
    if i >= 4 {
      var w := Volumes(bars)[i - 4..i + 1];
      assert w[..|w| - 1] == Volumes(bars)[i - 4..i];
    }
  }

  /** A spike has more than one and a half times the volume of each of the four bars before it. */
  lemma SpikeExceedsEachPrior(bars: seq<Bar>, i: nat, j: nat)
    requires i < |bars| && IsSpike(bars, i)
    requires i - 4 <= j < i
    ensures 2 * bars[i].volume > 3 * bars[j].volume
  {
    SpikeAgainstPrior(bars, i);
    var prior := Volumes(bars)[i - 4..i];
    NatSumAtLeast(prior, j - (i - 4));
  }

  /** A bar without trades is never a spike. */
  lemma ZeroVolumeNoSpike(bars: seq<Bar>, i: nat)
    requires i < |bars| && bars[i].volume == 0
    ensures !IsSpike(bars, i)
  {
    SpikeExact(bars, i);
  }

  /** A bar ending a flat run of five equal volumes is not a spike. */
  lemma FlatVolumeNoSpike(bars: seq<Bar>, i: nat)
    requires VOLUME_WINDOW - 1 <= i < |bars|
    requires forall j :: i - 4 <= j <= i ==> bars[j].volume == bars[i].volume
    ensures !IsSpike(bars, i)
  {
    if IsSpike(bars, i) {
      SpikeExceedsEachPrior(bars, i, i - 1);
      assert false;
    }
  }

  // ---------------------------------------------------------------------
  // Spike annotations
  // ---------------------------------------------------------------------

  const BUY_TEXT: string := "\U{25B2} BUY"
  const SELL_TEXT: string := "\U{25BC} SELL"
  const BUY_COLOR: string := "lime"
  const SELL_COLOR: string := "red"

  /** A label placed at a bar's high. */
  datatype Annotation = Annotation(at: nat, y: real, text: string, color: string)

  function AnnotationFor(bars: seq<Bar>, i: nat): Annotation
    requires i < |bars|
  {
    var up := bars[i].close > bars[i].open;
    Annotation(i, bars[i].high, if up then BUY_TEXT else SELL_TEXT, if up then BUY_COLOR else SELL_COLOR)
  }

  /** Per bar, its annotation if it is a spike. */
  function SpikeMarks(bars: seq<Bar>): (r: seq<Option<Annotation>>)
    ensures |r| == |bars|
  {
    seq(|bars|, i requires 0 <= i < |bars| => if IsSpike(bars, i) then Some(AnnotationFor(bars, i)) else None)
  }

  /** The annotations of the spikes, in time order. */
  function SpikeAnnotations(bars: seq<Bar>): seq<Annotation>
  {
    Present(SpikeMarks(bars))
  }

  /**
   * There is one annotation per spike and no other, in strictly
   * increasing time order, with no cap.
   */
  lemma SpikeAnnotationsExact(bars: seq<Bar>)
    ensures forall k :: 0 <= k < |SpikeAnnotations(bars)| ==>
      SpikeAnnotations(bars)[k].at < |bars| && IsSpike(bars, SpikeAnnotations(bars)[k].at) &&
      SpikeAnnotations(bars)[k] == AnnotationFor(bars, SpikeAnnotations(bars)[k].at)
    ensures forall k, l :: 0 <= k < l < |SpikeAnnotations(bars)| ==>
      SpikeAnnotations(bars)[k].at < SpikeAnnotations(bars)[l].at
    ensures forall i :: 0 <= i < |bars| && IsSpike(bars, i) ==>
      exists k :: 0 <= k < |SpikeAnnotations(bars)| && SpikeAnnotations(bars)[k].at == i
  {
    var marks, anns, idx := SpikeMarks(bars), SpikeAnnotations(bars), PresentIndices(SpikeMarks(bars));
    PresentSpec(marks);
    forall k | 0 <= k < |anns| ensures anns[k].at == idx[k] && IsSpike(bars, idx[k]) {
      assert marks[idx[k]] == Some(anns[k]);
    }
    forall i | 0 <= i < |bars| && IsSpike(bars, i)
      ensures exists k :: 0 <= k < |anns| && anns[k].at == i
    {
      assert marks[i].Some?;
      var k :| 0 <= k < |idx| && idx[k] == i;
      assert anns[k].at == i;
    }
  }

  /**
   * Each annotation sits at its bar's high and reads BUY in lime exactly
   * when the close is above the open, SELL in red otherwise (a close equal
   * to the open included).
   */
  lemma SpikeAnnotationsLabels(bars: seq<Bar>, k: nat)
    requires k < |SpikeAnnotations(bars)|
    ensures var a := SpikeAnnotations(bars)[k];
      a.at < |bars| && IsSpike(bars, a.at) && a.y == bars[a.at].high &&
      (a.text == BUY_TEXT && a.color == BUY_COLOR <==> bars[a.at].close > bars[a.at].open) &&
      (a.text == SELL_TEXT && a.color == SELL_COLOR <==> bars[a.at].close <= bars[a.at].open)
  {
    SpikeAnnotationsExact(bars);
    assert BUY_TEXT[2] != SELL_TEXT[2];
  }

  lemma SpikeMarksSnoc(bars: seq<Bar>, i: nat)
    requires i < |bars|
    ensures Present(SpikeMarks(bars)[..i + 1])
         == Present(SpikeMarks(bars)[..i]) + (if IsSpike(bars, i) then [AnnotationFor(bars, i)] else [])
  {
    assert SpikeMarks(bars)[..i + 1] == SpikeMarks(bars)[..i] + [SpikeMarks(bars)[i]];
    PresentSnoc(SpikeMarks(bars)[..i], SpikeMarks(bars)[i]);
  }

  /** The annotation loop over the rows whose `Spike` flag is set. */
  method Annotate(bars: seq<Bar>) returns (anns: seq<Annotation>)
    ensures anns == SpikeAnnotations(bars)
  {
    var spike := SpikeFlags(bars);
    anns := [];
    var i := 0;
    while i < |bars|
      invariant 0 <= i <= |bars|
      invariant anns == Present(SpikeMarks(bars)[..i])
    {
      if spike[i] {
        anns := anns + [AnnotationFor(bars, i)];
      }
      SpikeMarksSnoc(bars, i);
      i := i + 1;
    }
    assert SpikeMarks(bars)[..i] == SpikeMarks(bars);
  }

  // ---------------------------------------------------------------------
  // The two images
  // ---------------------------------------------------------------------

  /** What the daily figure is drawn from. */
  datatype DailyChart = DailyChart(rows: seq<DailyRow>)

  /** What the one-minute figure is drawn from. */
  datatype IntradayChart = IntradayChart(
    bars: seq<Bar>, volumeAverage: seq<Option<real>>, spikes: seq<bool>, annotations: seq<Annotation>)

  function IntradayOf(bars: seq<Bar>): IntradayChart
  {
    IntradayChart(bars, VolumeAverage(bars), SpikeFlags(bars), SpikeAnnotations(bars))
  }

  /** The base64 texts of the two figures; `(None, None)` after any exception. */
  datatype ImagePair = ImagePair(daily: Option<string>, intraday: Option<string>)

  /**
   * `generate_stock_images`: both images or neither; neither exactly when a
   * download or an export raised; the one-minute image is the empty text
   * when there are no one-minute bars.
   */
  method GenerateStockImages(
    daily: Option<seq<Bar>>, minute: Option<seq<Bar>>,
    drawDaily: DailyChart -> Option<string>, drawIntraday: IntradayChart -> Option<string>)
    returns (images: ImagePair)
    ensures images.daily.None? <==> images.intraday.None?
    ensures images.daily.None? <==>
      daily.None? || minute.None? ||
      drawDaily(DailyChart(OneYearView(daily.value))).None? ||
      (|minute.value| > 0 && drawIntraday(IntradayOf(minute.value)).None?)
    ensures images.daily.Some? ==>
      images.daily == drawDaily(DailyChart(OneYearView(daily.value))) &&
      images.intraday == (if |minute.value| == 0 then Some("") else drawIntraday(IntradayOf(minute.value)))
  {
    if daily.None? {
      return ImagePair(None, None);
    }
    var dailyChart := DailyChart(Tail(WithSmas(daily.value), ONE_YEAR));
    if minute.None? {
      return ImagePair(None, None);
    }
    var intradayImage := "";
    var bars := minute.value;
    if |bars| > 0 {
      var anns := Annotate(bars);
      var drawn := drawIntraday(IntradayChart(bars, VolumeAverage(bars), SpikeFlags(bars), anns));
      if drawn.None? {
        return ImagePair(None, None);
      }
      intradayImage := drawn.value;
    }
    var dailyImage := drawDaily(dailyChart);
    if dailyImage.None? {
      return ImagePair(None, None);
    }
    images := ImagePair(dailyImage, Some(intradayImage));
  }
}
